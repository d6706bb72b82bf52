/**
 * Any number of calls in progress at once, interrupted at every awaited operation.  With an
 * atomic reserve no single-use value is ever reserved twice; with a plain one it can be.
 */
module ReplayInterleaving {
  import opened Wrappers
  import opened ReplayStore

  /** The store and where each call is. */
  datatype World = World(store: Store, positions: seq<Position>)

  /** Call i takes its next step. */
  function Step(c: Contract, calls: seq<Request>, w: World, i: nat): (r: World)
    requires |w.positions| == |calls|
    ensures |r.positions| == |calls|
  {
    if i >= |calls| then w
    else
      var m := Move(c, w.store, calls[i], w.positions[i]);
      World(m.store, w.positions[i := m.position])
  }

  /** A schedule says whose turn it is. */
  function Run(c: Contract, calls: seq<Request>, w: World, schedule: seq<nat>): (r: World)
    requires |w.positions| == |calls|
    ensures |r.positions| == |calls|
  {
    if schedule == [] then w else Step(c, calls, Run(c, calls, w, schedule[..|schedule| - 1]), schedule[|schedule| - 1])
  }

  function Starting(s: Store, calls: seq<Request>): (w: World)
    ensures |w.positions| == |calls|
  {
    World(s, seq(|calls|, _ => Start))
  }

  // ---- Atomic reserve: safe under every schedule ------------------------------------------

  /** What a position says about the store: a resuming call found its reservation there, and
      a released call has it there and releases what its request asked for. */
  ghost predicate Justified(s: Store, q: Request, p: Position) {
    match p
    case Start => true
    case Refused(_) => true
    case Released(release) => q.reservation in s && release == ReleaseOf(q)
    case Queried(resuming) => resuming ==> q.reservation in s
    case Proved(resuming) => resuming ==> q.reservation in s
    case Noted(resuming, _) => resuming ==> q.reservation in s
    case Approved(resuming) => resuming ==> q.reservation in s
    case DigestFresh(resuming) => resuming ==> q.reservation in s
    case NullifierFresh(resuming) => resuming ==> q.reservation in s
    case AllFresh(resuming) => resuming ==> q.reservation in s
  }

  ghost predicate Safe(calls: seq<Request>, w: World) {
    |w.positions| == |calls| && SingleUse(w.store)
    && forall i :: 0 <= i < |calls| ==> Justified(w.store, calls[i], w.positions[i])
  }

  lemma MoveKeeps(c: Contract, s: Store, q: Request, p: Position)
    requires c.atomic && SingleUse(s) && Justified(s, q, p)
    ensures var m := Move(c, s, q, p); SingleUse(m.store) && s <= m.store && Justified(m.store, q, m.position)
  {
    hide InitialFault, EnvelopeFault, HasDigest, HasNullifier, HasApprovalNonce, HasAccountNonce;
  }

  lemma JustifiedLater(s: Store, t: Store, q: Request, p: Position)
    requires s <= t && Justified(s, q, p)
    ensures Justified(t, q, p)
  {
    if q.reservation in s {
      var i :| 0 <= i < |s| && s[i] == q.reservation;
      assert t[i] == q.reservation;
    }
  }

  lemma StepKeeps(c: Contract, calls: seq<Request>, w: World, i: nat)
    requires c.atomic && Safe(calls, w)
    ensures Safe(calls, Step(c, calls, w, i)) && w.store <= Step(c, calls, w, i).store
  {
    hide Move, SingleUse, Justified;
    if i < |calls| {
      MoveKeeps(c, w.store, calls[i], w.positions[i]);
      var r := Step(c, calls, w, i);
      forall j | 0 <= j < |calls| ensures Justified(r.store, calls[j], r.positions[j]) {
        if j != i { JustifiedLater(w.store, r.store, calls[j], w.positions[j]); }
      }
    }
  }

  /** Under every schedule of any calls, an atomic reserve keeps every single-use value to
      one reservation, and whatever is released is reserved. */
  lemma {:induction false} AtomicIsSafe(c: Contract, calls: seq<Request>, w: World, schedule: seq<nat>)
    requires c.atomic && Safe(calls, w)
    ensures Safe(calls, Run(c, calls, w, schedule)) && w.store <= Run(c, calls, w, schedule).store
  {
    hide Step, SingleUse, Justified;
    if schedule != [] {
      AtomicIsSafe(c, calls, w, schedule[..|schedule| - 1]);
      StepKeeps(c, calls, Run(c, calls, w, schedule[..|schedule| - 1]), schedule[|schedule| - 1]);
    }
  }

  /** So two released calls either carry the very same reservation or share no value. */
  lemma ReleasesApart(c: Contract, s: Store, calls: seq<Request>, schedule: seq<nat>, i: nat, j: nat)
    requires c.atomic && SingleUse(s) && i < |calls| && j < |calls|
    requires var w := Run(c, calls, Starting(s, calls), schedule); w.positions[i].Released? && w.positions[j].Released?
    ensures calls[i].reservation == calls[j].reservation || Apart(calls[i].reservation, calls[j].reservation)
  {
    hide Step, Run;
    AtomicIsSafe(c, calls, Starting(s, calls), schedule);
    var w := Run(c, calls, Starting(s, calls), schedule);
    assert Justified(w.store, calls[i], w.positions[i]) && Justified(w.store, calls[j], w.positions[j]);
    var a :| 0 <= a < |w.store| && w.store[a] == calls[i].reservation;
    var b :| 0 <= b < |w.store| && w.store[b] == calls[j].reservation;
  }

  // ---- A call alone is the uninterrupted call ----------------------------------------------

  function Steps(c: Contract, s: Store, q: Request, p: Position, n: nat): Moved
    decreases n
  {
    if n == 0 then Moved(s, p)
    else var m := Move(c, s, q, p); Steps(c, m.store, q, m.position, n - 1)
  }

  lemma StepsOnce(c: Contract, s: Store, q: Request, p: Position, n: nat)
    requires n > 0
    ensures Steps(c, s, q, p, n) == Steps(c, Move(c, s, q, p).store, q, Move(c, s, q, p).position, n - 1)
  {
  }

  /** Eight steps of the machine without interruption are the call, when no reservation it
      would make is refused. */
  lemma AloneIsAuthorize(c: Contract, s: Store, q: Request)
    requires SingleUse(s)
    ensures Steps(c, s, q, Start, 8) == Moved(Authorize(c, s, q).store, Authorize(c, s, q).result)
  {
    hide InitialFault, EnvelopeFault, Steps, Apart;
    var r := q.reservation;
    UnusedIsFresh(s, r);
    var p, t, n := Start, s, 8;
    while n > 0
      invariant 0 <= n <= 8
      invariant Steps(c, s, q, Start, 8) == Steps(c, t, q, p, n)
      invariant Ahead(c, s, q, t, p, n)
    {
      StepsOnce(c, t, q, p, n);
      var m := Move(c, t, q, p);
      t, p, n := m.store, m.position, n - 1;
    }
    Zero(c, t, q, p);
  }

  lemma Zero(c: Contract, s: Store, q: Request, p: Position)
    ensures Steps(c, s, q, p, 0) == Moved(s, p)
  {
  }

  lemma UnusedIsFresh(s: Store, r: Reservation)
    ensures Fresh(s, r) <==> !HasApprovalNonce(s, r.approvalNonce) && !HasDigest(s, r.digest) && !HasNullifier(s, r.nullifier)
                             && !HasAccountNonce(s, r.accountNonce)
  {
    if Fresh(s, r) {
      assert forall i :: 0 <= i < |s| ==> Apart(s[i], r);
    } else {
      var i :| 0 <= i < |s| && !Apart(s[i], r);
    }
  }

  /** How far an uninterrupted call with n steps to go has come. */
  ghost predicate Ahead(c: Contract, s: Store, q: Request, t: Store, p: Position, n: nat) {
    var r := q.reservation;
    var known := c.recognizes && r in s;
    var answer := Authorize(c, s, q);
    if p.Released? || p.Refused? then answer == Answer(t, p)
    else
      t == s
      && match p
         case Start => n == 8
         case Queried(resuming) => n == 7 && resuming == known && InitialFault(q).None?
         case Proved(resuming) => n == 6 && resuming == known && InitialFault(q).None? && EnvelopeFault(q).None?
         case Noted(resuming, consumed) =>
           n == 5 && resuming == known && InitialFault(q).None? && EnvelopeFault(q).None?
           && consumed == (!known && HasApprovalNonce(s, r.approvalNonce))
         case _ =>
           n == (if p.Approved? then 4 else if p.DigestFresh? then 3 else if p.NullifierFresh? then 2 else 1)
           && p.resuming == known && Acceptable(q) && (known || !HasApprovalNonce(s, r.approvalNonce))
           && (known || n >= 4 || !HasDigest(s, r.digest)) && (known || n >= 3 || !HasNullifier(s, r.nullifier))
           && (known || n >= 2 || !HasAccountNonce(s, r.accountNonce))
  }

  // ---- Plain reserve: unsafe ---------------------------------------------------------------

  /** First call 0 asks all its questions, then call 1 runs to its end, then call 0 reserves. */
  function Turn(k: nat): nat { if k < 7 || k == 15 then 0 else 1 }

  /** The positions of an acceptable, unknown call after k steps. */
  function PositionAfter(q: Request, k: nat): Position {
    if k == 0 then Start else if k == 1 then Queried(false) else if k == 2 then Proved(false) else if k == 3 then Noted(false, false)
    else if k == 4 then Approved(false) else if k == 5 then DigestFresh(false) else if k == 6 then NullifierFresh(false)
    else if k == 7 then AllFresh(false) else Released(ReleaseOf(q))
  }

  lemma FreshMove(c: Contract, s: Store, q: Request, k: nat)
    requires Acceptable(q) && Fresh(s, q.reservation) && k < 7
    ensures Move(c, s, q, PositionAfter(q, k)) == Moved(s, PositionAfter(q, k + 1))
  {
    hide InitialFault, EnvelopeFault, Apart;
    UnusedIsFresh(s, q.reservation);
    NotIn(s, q.reservation);
  }

  lemma NotIn(s: Store, r: Reservation)
    requires Fresh(s, r)
    ensures r !in s
  {
  }

  /** The world after k turns: call i has moved to its reservation, then call j to its end,
      then call i reserves; all others wait. */
  function Overtaking(s: Store, calls: seq<Request>, i: nat, j: nat, k: nat): (w: World)
    requires i < |calls| && j < |calls|
    ensures |w.positions| == |calls|
  {
    var waiting := Starting(s, calls).positions;
    var first, second := calls[i], calls[j];
    if k <= 7 then World(s, waiting[i := PositionAfter(first, k)])
    else if k < 15 then World(s, waiting[i := PositionAfter(first, 7)][j := PositionAfter(second, k - 7)])
    else if k == 15 then World(s + [second.reservation], waiting[i := PositionAfter(first, 7)][j := Released(ReleaseOf(second))])
    else
      World(s + [second.reservation] + [first.reservation],
            waiting[i := Released(ReleaseOf(first))][j := Released(ReleaseOf(second))])
  }

  lemma OvertakingStep(c: Contract, s: Store, calls: seq<Request>, i: nat, j: nat, k: nat)
    requires !c.atomic && i < |calls| && j < |calls| && i != j && k < 16
    requires Acceptable(calls[i]) && Acceptable(calls[j]) && Fresh(s, calls[i].reservation) && Fresh(s, calls[j].reservation)
    ensures Step(c, calls, Overtaking(s, calls, i, j, k), if Turn(k) == 0 then i else j) == Overtaking(s, calls, i, j, k + 1)
  {
    hide Acceptable, Fresh;
    var w, t := Overtaking(s, calls, i, j, k), Overtaking(s, calls, i, j, k + 1);
    if k < 7 {
      FreshMove(c, s, calls[i], k);
    } else if k < 14 {
      FreshMove(c, s, calls[j], k - 7);
    }
    var r := Step(c, calls, w, if Turn(k) == 0 then i else j);
    assert r.store == t.store;
    assert forall n :: 0 <= n < |calls| ==> r.positions[n] == t.positions[n];
  }

  lemma RunMore(c: Contract, calls: seq<Request>, w: World, schedule: seq<nat>, next: nat)
    requires |w.positions| == |calls|
    ensures Run(c, calls, w, schedule + [next]) == Step(c, calls, Run(c, calls, w, schedule), next)
  {
    assert (schedule + [next])[..|schedule|] == schedule;
  }

  /** Two calls that can spoil each other: both acceptable, both fresh, sharing a value. */
  predicate Clash(s: Store, a: Request, b: Request) {
    Acceptable(a) && Acceptable(b) && Fresh(s, a.reservation) && Fresh(s, b.reservation) && !Apart(a.reservation, b.reservation)
  }

  /** With a plain reserve, any two clashing calls can both be released, even two for the same
      reservation and among any others. */
  lemma PlainIsUnsafe(c: Contract, s: Store, calls: seq<Request>, i: nat, j: nat) returns (schedule: seq<nat>)
    requires !c.atomic && i < |calls| && j < |calls| && i != j && Clash(s, calls[i], calls[j])
    ensures var w := Run(c, calls, Starting(s, calls), schedule);
      w.positions[i].Released? && w.positions[j].Released? && !SingleUse(w.store)
  {
    hide Acceptable, Fresh, Step, Run;
    schedule := [];
    NoTurns(c, calls, Starting(s, calls));
    assert Starting(s, calls).positions[i := Start] == Starting(s, calls).positions;
    for k := 0 to 16
      invariant Run(c, calls, Starting(s, calls), schedule) == Overtaking(s, calls, i, j, k)
    {
      var next := if Turn(k) == 0 then i else j;
      RunMore(c, calls, Starting(s, calls), schedule, next);
      OvertakingStep(c, s, calls, i, j, k);
      schedule := schedule + [next];
    }
    var store := Overtaking(s, calls, i, j, 16).store;
    assert store[|s|] == calls[j].reservation && store[|s| + 1] == calls[i].reservation;
  }

  lemma NoTurns(c: Contract, calls: seq<Request>, w: World)
    requires |w.positions| == |calls|
    ensures Run(c, calls, w, []) == w
  {
  }

  // ---- Plain reserve: exactly when ---------------------------------------------------------

  /** What an unresumed call at a position has found out about the store it started with. */
  ghost predicate Checked(s: Store, q: Request, p: Position) {
    var r := q.reservation;
    match p
    case Start => true
    case Refused(_) => true
    case Released(_) => true
    case Queried(_) => InitialFault(q).None?
    case Proved(_) => InitialFault(q).None? && EnvelopeFault(q).None?
    case Noted(resuming, consumed) =>
      InitialFault(q).None? && EnvelopeFault(q).None? && (resuming || consumed || !HasApprovalNonce(s, r.approvalNonce))
    case Approved(resuming) => Acceptable(q) && (resuming || !HasApprovalNonce(s, r.approvalNonce))
    case DigestFresh(resuming) => Acceptable(q) && (resuming || (!HasApprovalNonce(s, r.approvalNonce) && !HasDigest(s, r.digest)))
    case NullifierFresh(resuming) =>
      Acceptable(q) && (resuming || (!HasApprovalNonce(s, r.approvalNonce) && !HasDigest(s, r.digest) && !HasNullifier(s, r.nullifier)))
    case AllFresh(resuming) => Acceptable(q) && (resuming || Fresh(s, r))
  }

  /** The reservations of some calls, in order. */
  function ReservationsOf(calls: seq<Request>, owners: seq<nat>): (rs: Store)
    requires forall k :: 0 <= k < |owners| ==> owners[k] < |calls|
    ensures |rs| == |owners|
  {
    seq(|owners|, k requires 0 <= k < |owners| => calls[owners[k]].reservation)
  }

  /** The store is the one the calls started with and the reservations of different released
      calls, each acceptable and fresh at the start. */
  ghost predicate Owned(s: Store, calls: seq<Request>, w: World, owners: seq<nat>) {
    |w.positions| == |calls|
    && (forall k :: 0 <= k < |owners| ==>
          owners[k] < |calls| && w.positions[owners[k]].Released? && Acceptable(calls[owners[k]]) && Fresh(s, calls[owners[k]].reservation))
    && (forall a, b :: 0 <= a < b < |owners| ==> owners[a] != owners[b])
    && w.store == s + ReservationsOf(calls, owners)
    && forall i :: 0 <= i < |calls| ==> Checked(s, calls[i], w.positions[i])
  }

  lemma HadBefore(s: Store, t: Store, r: Reservation)
    requires s <= t
    ensures HasApprovalNonce(s, r.approvalNonce) ==> HasApprovalNonce(t, r.approvalNonce)
    ensures HasDigest(s, r.digest) ==> HasDigest(t, r.digest)
    ensures HasNullifier(s, r.nullifier) ==> HasNullifier(t, r.nullifier)
    ensures HasAccountNonce(s, r.accountNonce) ==> HasAccountNonce(t, r.accountNonce)
  {
    assert forall i :: 0 <= i < |s| ==> t[i] == s[i];
  }

  /** One step keeps what the call has checked, and appends its reservation only when all of
      it is checked. */
  lemma CheckedMove(c: Contract, s: Store, t: Store, q: Request, p: Position)
    requires !c.atomic && s <= t && Checked(s, q, p)
    ensures var m := Move(c, t, q, p);
      Checked(s, q, m.position) && (p.Released? ==> m.position.Released?)
      && (m.store == t
          || (m.store == t + [q.reservation] && !p.Released? && m.position.Released? && Acceptable(q) && Fresh(s, q.reservation)))
  {
    hide InitialFault, EnvelopeFault, HasDigest, HasNullifier, HasApprovalNonce, HasAccountNonce, Fresh;
    HadBefore(s, t, q.reservation);
    UnusedIsFresh(s, q.reservation);
  }

  lemma OwnedStep(c: Contract, s: Store, calls: seq<Request>, w: World, owners: seq<nat>, i: nat) returns (next: seq<nat>)
    requires !c.atomic && Owned(s, calls, w, owners)
    ensures Owned(s, calls, Step(c, calls, w, i), next)
  {
    hide Move, Checked, Acceptable, Fresh;
    next := owners;
    if i < |calls| {
      CheckedMove(c, s, w.store, calls[i], w.positions[i]);
      var r := Step(c, calls, w, i);
      if r.store != w.store {
        next := owners + [i];
        assert ReservationsOf(calls, next) == ReservationsOf(calls, owners) + [calls[i].reservation];
      }
    }
  }

  lemma {:induction false} OwnedRun(c: Contract, s: Store, calls: seq<Request>, schedule: seq<nat>) returns (owners: seq<nat>)
    requires !c.atomic
    ensures Owned(s, calls, Run(c, calls, Starting(s, calls), schedule), owners)
  {
    hide Step, Owned;
    if schedule == [] {
      owners := [];
      OwnedStart(s, calls);
    } else {
      var init := schedule[..|schedule| - 1];
      var before := OwnedRun(c, s, calls, init);
      OwnedSizes(s, calls, Run(c, calls, Starting(s, calls), init), before);
      owners := OwnedStep(c, s, calls, Run(c, calls, Starting(s, calls), init), before, schedule[|schedule| - 1]);
    }
  }

  lemma OwnedStart(s: Store, calls: seq<Request>)
    ensures Owned(s, calls, Starting(s, calls), [])
  {
    assert s + ReservationsOf(calls, []) == s;
  }

  lemma OwnedSizes(s: Store, calls: seq<Request>, w: World, owners: seq<nat>)
    requires Owned(s, calls, w, owners)
    ensures |w.positions| == |calls|
  {
  }

  /** Two reservations that share a value are those of two clashing calls. */
  lemma SpoiledByClash(s: Store, calls: seq<Request>, w: World, owners: seq<nat>) returns (i: nat, j: nat)
    requires SingleUse(s) && Owned(s, calls, w, owners) && !SingleUse(w.store)
    ensures i < |calls| && j < |calls| && i != j && Clash(s, calls[i], calls[j])
  {
    hide Acceptable, Checked;
    var a, b :| 0 <= a < b < |w.store| && !Apart(w.store[a], w.store[b]);
    assert b >= |s|;
    assert a >= |s|;
    i, j := owners[a - |s|], owners[b - |s|];
  }

  /** With a plain reserve some schedule reserves a single-use value twice exactly if two of
      the calls clash. */
  lemma PlainUnsafeExactly(c: Contract, s: Store, calls: seq<Request>)
    requires !c.atomic && SingleUse(s)
    ensures (exists schedule :: !SingleUse(Run(c, calls, Starting(s, calls), schedule).store))
       <==> exists i, j :: 0 <= i < |calls| && 0 <= j < |calls| && i != j && Clash(s, calls[i], calls[j])
  {
    hide Run, Clash, SingleUse, Owned, Starting;
    if schedule :| !SingleUse(Run(c, calls, Starting(s, calls), schedule).store) {
      var owners := OwnedRun(c, s, calls, schedule);
      var i, j := SpoiledByClash(s, calls, Run(c, calls, Starting(s, calls), schedule), owners);
    }
    if i, j :| 0 <= i < |calls| && 0 <= j < |calls| && i != j && Clash(s, calls[i], calls[j]) {
      var schedule := PlainIsUnsafe(c, s, calls, i, j);
      assert !SingleUse(Run(c, calls, Starting(s, calls), schedule).store);
    }
  }
}
