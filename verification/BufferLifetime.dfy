/**
  The lifetime of one reference-counted storage and of all the IOBufs that share it, cloned,
  moved and destroyed by any number of threads.  Every atomic operation and every free is one
  step, so a run is an arbitrary interleaving.
*/
module BufferLifetime {
  import opened Wrappers

  /**
    How the storage was allocated: one block for the first IOBuf, the SharedInfo and the data
    (createCombined); one block for the data and the SharedInfo (createSeparate); or a buffer
    handed in by the user with a SharedInfo of its own (takeOwnership).
  */
  datatype Kind = Combined | Separate | Owned

  /** The in-use flags in the prefix of a combined block: the IOBuf object and the data. */
  datatype Flags = Flags(iobuf: bool, data: bool)

  /** Where an IOBuf stands, from its construction to its delete. */
  datatype Phase =
    | Live(cloning: nat)                      // usable; so many clone calls on it are under way
    | Dropping                                // about to decrement the reference count
    | LastUser                                // the count was 1: about to free the data
    | ReleasingData(seen: Option<Flags>)      // in releaseStorage(kDataInUse)
    | DeletingInfo                            // user's buffer freed, SharedInfo still to delete
    | Detached                                // has no storage any more
    | ReleasingObject(seen: Option<Flags>)    // in releaseStorage(kIOBufInUse)
    | Gone

  /** `bufs[0]` is the IOBuf that the storage was created with. */
  datatype State = State(
    kind: Kind,
    refcount: int,
    flags: Flags,
    bufs: seq<Phase>,
    dataReleases: nat,
    infoDeletes: nat,
    blockFrees: nat)

  function Initial(kind: Kind): State {
    State(kind, 1, Flags(true, true), [Live(0)], 0, 0, 0)
  }

  datatype Action =
    | CloneAdd(b: nat)
    | CloneReturn(b: nat)
    | Move(b: nat)
    | Drop(b: nat)
    | Decrement(b: nat)
    | FreeData(b: nat)
    | DeleteInfo(b: nat)
    | LoadFlags(b: nat)
    | Exchange(b: nat, spurious: bool)
    | Delete(b: nat)

  predicate Releasing(p: Phase) {
    p.ReleasingData? || p.ReleasingObject?
  }

  predicate Enabled(s: State, a: Action) {
    a.b < |s.bufs| &&
    var p := s.bufs[a.b];
    match a
    case CloneAdd(_) => p.Live?
    case CloneReturn(_) => p.Live? && p.cloning > 0
    case Move(_) => p == Live(0)
    case Drop(_) => p == Live(0)
    case Decrement(_) => p == Dropping
    case FreeData(_) => p == LastUser
    case DeleteInfo(_) => p == DeletingInfo
    case LoadFlags(_) => Releasing(p) && p.seen.None?
    case Exchange(_, _) => Releasing(p) && p.seen.Some?
    case Delete(_) => p == Detached
  }

  function Put(s: State, b: nat, p: Phase): State
    requires b < |s.bufs|
  {
    s.(bufs := s.bufs[b := p])
  }

  /** The flags that remain when the releasing party takes its own away. */
  function Cleared(p: Phase, f: Flags): Flags {
    if p.ReleasingData? then f.(data := false) else f.(iobuf := false)
  }

  function Released(s: State, b: nat): State
    requires b < |s.bufs|
  {
    if s.bufs[b].ReleasingData? then Put(s, b, Detached).(dataReleases := s.dataReleases + 1)
    else Put(s, b, Gone)
  }

  /** One turn of the loop of releaseStorage, on the flags it saw last. */
  function Turn(s: State, b: nat, seen: Flags, spurious: bool): State
    requires b < |s.bufs| && Releasing(s.bufs[b])
  {
    var f := Cleared(s.bufs[b], seen);
    if f == Flags(false, false) then Released(s, b).(blockFrees := s.blockFrees + 1)
    else if s.flags == seen && !spurious then Released(s, b).(flags := f)
    else Put(s, b, s.bufs[b].(seen := Some(s.flags)))
  }

  predicate Embedded(s: State, b: nat) {
    s.kind == Combined && b == 0
  }

  function Apply(s: State, a: Action): State
    requires Enabled(s, a)
  {
    var p := s.bufs[a.b];
    match a
    case CloneAdd(b) => Put(s, b, Live(p.cloning + 1)).(refcount := s.refcount + 1)
    case CloneReturn(b) => s.(bufs := s.bufs[b := Live(p.cloning - 1)] + [Live(0)])
    case Move(b) => s.(bufs := s.bufs[b := Detached] + [Live(0)])
    case Drop(b) => Put(s, b, Dropping)
    case Decrement(b) =>
      Put(s, b, if s.refcount > 1 then Detached else LastUser).(refcount := s.refcount - 1)
    case FreeData(b) =>
      (match s.kind
       case Combined => Put(s, b, ReleasingData(None))
       case Separate => Put(s, b, Detached).(dataReleases := s.dataReleases + 1, blockFrees := s.blockFrees + 1)
       case Owned => Put(s, b, DeletingInfo).(dataReleases := s.dataReleases + 1))
    case DeleteInfo(b) => Put(s, b, Detached).(infoDeletes := s.infoDeletes + 1)
    case LoadFlags(b) => Put(s, b, p.(seen := Some(s.flags)))
    case Exchange(b, spurious) => Turn(s, b, p.seen.value, spurious)
    case Delete(b) => Put(s, b, if Embedded(s, b) then ReleasingObject(None) else Gone)
  }

  ghost predicate Runs(s: State, steps: seq<Action>, t: State)
    decreases |steps|
  {
    if steps == [] then s == t
    else Enabled(s, steps[0]) && Runs(Apply(s, steps[0]), steps[1..], t)
  }

  ghost predicate Reachable(t: State) {
    exists kind, steps :: Runs(Initial(kind), steps, t)
  }

  // ---------------------------------------------------------------- sums over the IOBufs

  /** References that the count must account for: an IOBuf on the storage, and each clone to come. */
  function Holds(p: Phase): nat {
    match p
    case Live(n) => 1 + n
    case Dropping => 1
    case _ => 0
  }

  /** The data is about to be released by this one. */
  function Pending(p: Phase): nat {
    if p.LastUser? || p.ReleasingData? then 1 else 0
  }

  function InfoPending(p: Phase): nat {
    if p.DeletingInfo? then 1 else 0
  }

  function Sum(weight: Phase -> nat, bufs: seq<Phase>): nat {
    if bufs == [] then 0 else weight(bufs[0]) + Sum(weight, bufs[1..])
  }

  lemma {:induction false} SumPut(weight: Phase -> nat, bufs: seq<Phase>, b: nat, p: Phase)
    requires b < |bufs|
    ensures Sum(weight, bufs[b := p]) == Sum(weight, bufs) - weight(bufs[b]) + weight(p)
    ensures weight(bufs[b]) <= Sum(weight, bufs)
  {
    if b == 0 {
      assert bufs[b := p][1..] == bufs[1..];
    } else {
      assert bufs[b := p][1..] == bufs[1..][b - 1 := p];
      SumPut(weight, bufs[1..], b - 1, p);
    }
  }

  lemma {:induction false} SumAppend(weight: Phase -> nat, bufs: seq<Phase>, p: Phase)
    ensures Sum(weight, bufs + [p]) == Sum(weight, bufs) + weight(p)
  {
    if bufs == [] {
      assert bufs + [p] == [p];
    } else {
      assert (bufs + [p])[1..] == bufs[1..] + [p];
      SumAppend(weight, bufs[1..], p);
    }
  }

  // ---------------------------------------------------------------- the invariant

  /** What one IOBuf may be doing, given the storage. */
  predicate PhaseOk(s: State, b: nat, p: Phase) {
    match p
    case ReleasingData(seen) =>
      s.kind == Combined && (seen.Some? ==> seen.value.data && (s.flags.iobuf ==> seen.value.iobuf))
    case ReleasingObject(seen) =>
      Embedded(s, b) && (seen.Some? ==> seen.value.iobuf && (s.flags.data ==> seen.value.data))
    case DeletingInfo => s.kind == Owned
    case _ => true
  }

  predicate BlockOk(s: State)
    requires s.bufs != []
  {
    match s.kind
    case Combined =>
      && s.blockFrees == (if s.dataReleases == 1 && s.bufs[0] == Gone then 1 else 0)
      && (s.blockFrees == 0 ==> s.flags == Flags(s.bufs[0] != Gone, s.dataReleases == 0))
    case Separate => s.blockFrees == s.dataReleases
    case Owned => s.blockFrees == 0
  }

  ghost predicate Inv(s: State) {
    && s.bufs != []
    && s.refcount == Sum(Holds, s.bufs)
    && Sum(Pending, s.bufs) + s.dataReleases == (if s.refcount == 0 then 1 else 0)
    && Sum(InfoPending, s.bufs) + s.infoDeletes == (if s.kind == Owned then s.dataReleases else 0)
    && BlockOk(s)
    && forall b :: 0 <= b < |s.bufs| ==> PhaseOk(s, b, s.bufs[b])
  }

  lemma SumsPut(s: State, b: nat, p: Phase)
    requires b < |s.bufs|
    ensures var t := s.bufs[b := p];
            && Sum(Holds, t) == Sum(Holds, s.bufs) - Holds(s.bufs[b]) + Holds(p)
            && Sum(Pending, t) == Sum(Pending, s.bufs) - Pending(s.bufs[b]) + Pending(p)
            && Sum(InfoPending, t) == Sum(InfoPending, s.bufs) - InfoPending(s.bufs[b]) + InfoPending(p)
    ensures Holds(s.bufs[b]) <= Sum(Holds, s.bufs)
    ensures Pending(s.bufs[b]) <= Sum(Pending, s.bufs)
    ensures InfoPending(s.bufs[b]) <= Sum(InfoPending, s.bufs)
  {
    SumPut(Holds, s.bufs, b, p);
    SumPut(Pending, s.bufs, b, p);
    SumPut(InfoPending, s.bufs, b, p);
  }

  lemma SumsAppend(bufs: seq<Phase>)
    ensures var t := bufs + [Live(0)];
            && Sum(Holds, t) == Sum(Holds, bufs) + 1
            && Sum(Pending, t) == Sum(Pending, bufs)
            && Sum(InfoPending, t) == Sum(InfoPending, bufs)
  {
    SumAppend(Holds, bufs, Live(0));
    SumAppend(Pending, bufs, Live(0));
    SumAppend(InfoPending, bufs, Live(0));
  }

  lemma InitialInv(kind: Kind)
    ensures Inv(Initial(kind))
  {
    SumsAppend([]);
    assert [] + [Live(0)] == [Live(0)];
  }

  lemma CloneAddKeepsInv(s: State, b: nat)
    requires Inv(s) && Enabled(s, CloneAdd(b))
    ensures Inv(Apply(s, CloneAdd(b)))
  {
    SumsPut(s, b, Live(s.bufs[b].cloning + 1));
  }

  /** A new IOBuf takes over a reference that `b` accounted for. */
  lemma HandOverKeepsInv(s: State, b: nat, p: Phase)
    requires Inv(s) && b < |s.bufs| && s.bufs[b].Live? && (p.Live? || p == Detached)
    requires Holds(s.bufs[b]) == Holds(p) + 1
    ensures Inv(s.(bufs := s.bufs[b := p] + [Live(0)]))
  {
    SumsPut(s, b, p);
    SumsAppend(s.bufs[b := p]);
  }

  /** Destruction up to the point where the storage is released. */
  lemma DroppingKeepsInv(s: State, a: Action)
    requires Inv(s) && Enabled(s, a) && (a.Drop? || a.Decrement? || a.Delete?)
    ensures Inv(Apply(s, a))
  {
    SumsPut(s, a.b, Apply(s, a).bufs[a.b]);
  }

  lemma FreeingKeepsInv(s: State, a: Action)
    requires Inv(s) && Enabled(s, a) && (a.FreeData? || a.DeleteInfo?)
    ensures Inv(Apply(s, a))
  {
    SumsPut(s, a.b, Apply(s, a).bufs[a.b]);
  }

  /** The loop of releaseStorage. */
  lemma ReleasingKeepsPhases(s: State, a: Action)
    requires Inv(s) && Enabled(s, a) && (a.LoadFlags? || a.Exchange?)
    ensures var t := Apply(s, a);
            |t.bufs| == |s.bufs| && forall b :: 0 <= b < |t.bufs| ==> PhaseOk(t, b, t.bufs[b])
  {
    var t := Apply(s, a);
    SumsPut(s, a.b, Gone);
    assert PhaseOk(s, a.b, s.bufs[a.b]);
    forall b | 0 <= b < |t.bufs| ensures PhaseOk(t, b, t.bufs[b]) {
      assert PhaseOk(s, b, s.bufs[b]);
    }
  }

  lemma ReleasingKeepsInv(s: State, a: Action)
    requires Inv(s) && Enabled(s, a) && (a.LoadFlags? || a.Exchange?)
    ensures Inv(Apply(s, a))
  {
    SumsPut(s, a.b, Apply(s, a).bufs[a.b]);
    assert PhaseOk(s, a.b, s.bufs[a.b]);
    ReleasingKeepsPhases(s, a);
  }

  lemma StepKeepsInv(s: State, a: Action)
    requires Inv(s) && Enabled(s, a)
    ensures Inv(Apply(s, a))
  {
    match a
    case CloneAdd(b) => CloneAddKeepsInv(s, b);
    case CloneReturn(b) => HandOverKeepsInv(s, b, Live(s.bufs[b].cloning - 1));
    case Move(b) => HandOverKeepsInv(s, b, Detached);
    case LoadFlags(_) => ReleasingKeepsInv(s, a);
    case Exchange(_, _) => ReleasingKeepsInv(s, a);
    case FreeData(_) => FreeingKeepsInv(s, a);
    case DeleteInfo(_) => FreeingKeepsInv(s, a);
    case _ => DroppingKeepsInv(s, a);
  }

  lemma {:induction false} RunKeepsInv(s: State, steps: seq<Action>, t: State)
    requires Inv(s) && Runs(s, steps, t)
    ensures Inv(t)
    decreases |steps|
  {
    if steps != [] {
      StepKeepsInv(s, steps[0]);
      RunKeepsInv(Apply(s, steps[0]), steps[1..], t);
    }
  }

  lemma ReachableInv(s: State)
    requires Reachable(s)
    ensures Inv(s)
  {
    var kind, steps :| Runs(Initial(kind), steps, s);
    InitialInv(kind);
    RunKeepsInv(Initial(kind), steps, s);
  }

  // ---------------------------------------------------------------- what holds in every reachable state

  /** The count is the number of IOBufs on the storage plus the clones being made. */
  lemma CountIsExact(s: State)
    requires Reachable(s)
    ensures s.refcount == Sum(Holds, s.bufs)
  {
    ReachableInv(s);
  }

  /** The reference count with the free function; the bytes; the prefix and the first IOBuf. */
  datatype Memory = Count | Data | Prefix

  predicate Alive(s: State, m: Memory) {
    match m
    case Count => if s.kind == Owned then s.infoDeletes == 0 else s.blockFrees == 0
    case Data => s.dataReleases == 0 && s.blockFrees == 0
    case Prefix => s.blockFrees == 0
  }

  /** What a step reads or writes; a step of the first IOBuf also uses that object itself. */
  function Touches(s: State, a: Action): set<Memory> {
    (if Embedded(s, a.b) then {Prefix} else {}) +
    (match a
     case CloneAdd(_) => {Count, Data}
     case CloneReturn(_) => {Count, Data}
     case Move(_) => {Count, Data}
     case Decrement(_) => {Count}
     case FreeData(_) => {Count, Data}
     case DeleteInfo(_) => {Count}
     case LoadFlags(_) => {Prefix}
     case Exchange(_, _) => {Prefix}
     case _ => {})
  }

  /** No step of any thread uses memory that was already freed. */
  lemma NoUseAfterFree(s: State, a: Action, m: Memory)
    requires Reachable(s) && Enabled(s, a) && m in Touches(s, a)
    ensures Alive(s, m)
  {
    ReachableInv(s);
    SumsPut(s, a.b, Gone);
    assert PhaseOk(s, a.b, s.bufs[a.b]);
  }

  /** An IOBuf that is in use can read its bytes, whatever the others do. */
  lemma LiveDataIsKept(s: State, b: nat)
    requires Reachable(s) && b < |s.bufs| && s.bufs[b].Live?
    ensures Alive(s, Data) && Alive(s, Count)
  {
    ReachableInv(s);
    SumsPut(s, b, Gone);
  }

  /** The assertion of releaseStorage: the flag to clear is still set in the word just loaded. */
  lemma ReleasedFlagIsSet(s: State, b: nat)
    requires Reachable(s) && Enabled(s, LoadFlags(b))
    ensures s.bufs[b].ReleasingData? ==> s.flags.data
    ensures s.bufs[b].ReleasingObject? ==> s.flags.iobuf
  {
    ReachableInv(s);
    SumsPut(s, b, Gone);
    assert PhaseOk(s, b, s.bufs[b]);
  }

  /** Nothing is freed twice, and the data not before its last user has let go of it. */
  lemma FreedAtMostOnce(s: State)
    requires Reachable(s)
    ensures s.dataReleases <= 1 && s.infoDeletes <= 1 && s.blockFrees <= 1
    ensures s.dataReleases == 1 ==> s.refcount == 0
  {
    ReachableInv(s);
  }

  /** Once the count is zero it stays zero: nobody can clone the storage back to life. */
  lemma ZeroIsFinal(s: State, a: Action)
    requires Reachable(s) && Enabled(s, a) && s.refcount == 0
    ensures Apply(s, a).refcount == 0
  {
    ReachableInv(s);
    SumsPut(s, a.b, Gone);
  }

  /** The combined block is freed exactly when both of its parts are released, by the second. */
  lemma CombinedFreedBySecond(s: State)
    requires Reachable(s) && s.kind == Combined
    ensures s.bufs != []
    ensures s.blockFrees == 1 <==> s.dataReleases == 1 && s.bufs[0] == Gone
  {
    ReachableInv(s);
  }

  /** When every IOBuf is gone, everything that was allocated has been freed, once. */
  lemma NothingLeaks(s: State)
    requires Reachable(s) && forall b :: 0 <= b < |s.bufs| ==> s.bufs[b] == Gone
    ensures s.dataReleases == 1
    ensures s.infoDeletes == (if s.kind == Owned then 1 else 0)
    ensures s.blockFrees == (if s.kind == Owned then 0 else 1)
  {
    ReachableInv(s);
    GoneSums(s.bufs);
  }

  lemma {:induction false} GoneSums(bufs: seq<Phase>)
    requires forall b :: 0 <= b < |bufs| ==> bufs[b] == Gone
    ensures Sum(Holds, bufs) == 0 && Sum(Pending, bufs) == 0 && Sum(InfoPending, bufs) == 0
  {
    if bufs != [] {
      GoneSums(bufs[1..]);
    }
  }

  /**
    The exchange loop is short: a genuine failure means the other part was released meanwhile,
    so this party's next turn frees the block.
  */
  lemma RetryFrees(s: State, b: nat)
    requires Reachable(s) && Enabled(s, Exchange(b, false)) && Releasing(Apply(s, Exchange(b, false)).bufs[b])
    ensures var p := Apply(s, Exchange(b, false)).bufs[b];
            Cleared(p, p.seen.value) == Flags(false, false)
  {
    ReachableInv(s);
    SumsPut(s, b, Gone);
    assert PhaseOk(s, b, s.bufs[b]);
  }

  // ---------------------------------------------------------------- what the steps tell

  function Usable(p: Phase): nat {
    if p.Live? then 1 else 0
  }

  function Cloning(p: Phase): nat {
    if p.Live? then p.cloning else 0
  }

  /** How many steps of one sort a run has. */
  function Steps(sort: Action -> bool, steps: seq<Action>): nat {
    if steps == [] then 0 else (if sort(steps[0]) then 1 else 0) + Steps(sort, steps[1..])
  }

  predicate IsAdd(a: Action) {
    a.CloneAdd?
  }

  predicate IsReturn(a: Action) {
    a.CloneReturn?
  }

  predicate IsMove(a: Action) {
    a.Move?
  }

  predicate IsDrop(a: Action) {
    a.Drop?
  }

  /**
    A clone that has returned is one more IOBuf that can be used, a dropped one is one less, and
    moving makes a new one of another; so many are there, and so many clones are under way.
  */
  lemma {:induction false} StepsTellIOBufs(s: State, steps: seq<Action>, t: State)
    requires Runs(s, steps, t)
    ensures Sum(Usable, t.bufs) == Sum(Usable, s.bufs) + Steps(IsReturn, steps) - Steps(IsDrop, steps)
    ensures Sum(Cloning, t.bufs) == Sum(Cloning, s.bufs) + Steps(IsAdd, steps) - Steps(IsReturn, steps)
    ensures |t.bufs| == |s.bufs| + Steps(IsReturn, steps) + Steps(IsMove, steps)
    decreases |steps|
  {
    if steps != [] {
      StepTellsIOBufs(s, steps[0]);
      StepsTellIOBufs(Apply(s, steps[0]), steps[1..], t);
    }
  }

  lemma StepTellsIOBufs(s: State, a: Action)
    requires Enabled(s, a)
    ensures var t := Apply(s, a);
            && Sum(Usable, t.bufs)
               == Sum(Usable, s.bufs) + (if a.CloneReturn? then 1 else 0) - (if a.Drop? then 1 else 0)
            && Sum(Cloning, t.bufs)
               == Sum(Cloning, s.bufs) + (if a.CloneAdd? then 1 else 0) - (if a.CloneReturn? then 1 else 0)
            && |t.bufs| == |s.bufs| + if a.CloneReturn? || a.Move? then 1 else 0
  {
    var t := Apply(s, a);
    var p := t.bufs[a.b];
    var same := s.bufs[a.b := p];
    SumPut(Usable, s.bufs, a.b, p);
    SumPut(Cloning, s.bufs, a.b, p);
    SumAppend(Usable, same, Live(0));
    SumAppend(Cloning, same, Live(0));
    assert t.bufs == if a.CloneReturn? || a.Move? then same + [Live(0)] else same;
  }

  // ---------------------------------------------------------------- what is dropped gets freed

  /** How many steps an IOBuf that is being destroyed may still take. */
  function Left(p: Phase): nat {
    match p
    case Live(_) => 0
    case Dropping => 9
    case LastUser => 8
    case ReleasingData(seen) => if seen.None? then 7 else if seen.value.iobuf then 6 else 5
    case DeletingInfo => 5
    case Detached => 4
    case ReleasingObject(seen) => if seen.None? then 3 else if seen.value.data then 2 else 1
    case Gone => 0
  }

  /** A step of a destruction; a compare-exchange that fails for no reason brings it no further. */
  predicate CleansUp(a: Action) {
    a.Decrement? || a.FreeData? || a.DeleteInfo? || a.LoadFlags? || a.Delete? || (a.Exchange? && !a.spurious)
  }

  lemma StepCleansUp(s: State, a: Action)
    requires Inv(s) && Enabled(s, a) && CleansUp(a)
    ensures Sum(Left, Apply(s, a).bufs) < Sum(Left, s.bufs)
  {
    var p := Apply(s, a).bufs[a.b];
    SumPut(Left, s.bufs, a.b, p);
    SumsPut(s, a.b, Gone);
    assert PhaseOk(s, a.b, s.bufs[a.b]);
    assert Left(p) < Left(s.bufs[a.b]);
    assert Apply(s, a).bufs == s.bufs[a.b := p];
  }

  /**
    Destruction comes to its end: the destroying threads take no more steps than are left, and
    while an IOBuf that was dropped is not gone, one of them can go on.
  */
  lemma {:induction false} CleanupEnds(s: State, steps: seq<Action>, t: State)
    requires Inv(s) && Runs(s, steps, t) && forall i :: 0 <= i < |steps| ==> CleansUp(steps[i])
    ensures |steps| <= Sum(Left, s.bufs) - Sum(Left, t.bufs)
    ensures forall b :: 0 <= b < |t.bufs| && !t.bufs[b].Live? && t.bufs[b] != Gone ==>
              exists a :: CleansUp(a) && a.b == b && Enabled(t, a)
    ensures forall b :: 0 <= b < |t.bufs| && t.bufs[b].Live? ==>
              Enabled(t, if t.bufs[b].cloning > 0 then CloneReturn(b) else Drop(b))
    decreases |steps|
  {
    if steps == [] {
      forall b | 0 <= b < |t.bufs| && !t.bufs[b].Live? && t.bufs[b] != Gone
        ensures exists a :: CleansUp(a) && a.b == b && Enabled(t, a)
      {
        var a := NextStep(t.bufs[b], b);
        assert CleansUp(a) && a.b == b && Enabled(t, a);
      }
    } else {
      StepCleansUp(s, steps[0]);
      StepKeepsInv(s, steps[0]);
      CleanupEnds(Apply(s, steps[0]), steps[1..], t);
    }
  }

  function NextStep(p: Phase, b: nat): Action {
    match p
    case Dropping => Decrement(b)
    case LastUser => FreeData(b)
    case DeletingInfo => DeleteInfo(b)
    case Detached => Delete(b)
    case _ => if Releasing(p) && p.seen.Some? then Exchange(b, false) else LoadFlags(b)
  }
}
