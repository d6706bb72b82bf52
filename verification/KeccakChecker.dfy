/**
 The row-by-row checker: it goes through the physical rows and, in each, through the cells of every
 constraint family, rebuilds the expected value of a cell and reports the first that differs. It is proved
 to find nothing exactly when the stored trace satisfies the constraints, and so exactly when the claimed
 digest is the sponge digest; and what it reports is the first difference in that order.
 */
module KeccakChecker {
  import opened Bits
  import opened Wrappers
  import opened KeccakSpec
  import opened KeccakWitness
  import opened KeccakPadding
  import opened PrimeField
  import opened KeccakAir
  import opened RowLayout
  import opened KeccakTrace
  import opened KeccakStatement

  /** A constraint on the cells of one group; the last three share the label of the state transition. */
  datatype Family =
    | StateBoolean | AbsorbStart | FinalDigest | Pairs01 | Pairs23 | Quads | Parity | Effect | RhoPi | Chi
    | BaseState | ExpectedState | NextState

  /** What a row is checked against. */
  datatype View = View(i: nat, blocks: seq<RateBlock>, digest: seq<Byte>, prev: Cells, row: Row, next: Cells)

  predicate Sized(m: Cells, n: nat)
  {
    |m| == n && forall l :: 0 <= l < n ==> |m[l]| == 64
  }

  predicate SizedView(v: View)
  {
    && Sized(v.prev, 25) && Sized(v.next, 25) && |v.digest| == 32
    && Sized(v.row.state, 25) && Sized(v.row.p01, 5) && Sized(v.row.p23, 5) && Sized(v.row.p0123, 5) && Sized(v.row.c, 5)
    && Sized(v.row.d, 5) && Sized(v.row.b, 25) && Sized(v.row.chi, 25) && Sized(v.row.base, 25) && Sized(v.row.expected, 25)
  }

  ghost predicate CanonicalView(p: int, v: View)
  {
    Canonical(p, v.prev, 25) && Canonical(p, v.next, 25) && CanonicalRow(p, v.row) && |v.digest| == 32
  }

  lemma CanonicalIsSized(p: int, v: View)
    requires CanonicalView(p, v)
    ensures SizedView(v)
  {
  }

  function Lanes(f: Family): nat
  {
    match f
    case FinalDigest => 4
    case Pairs01 => 5
    case Pairs23 => 5
    case Quads => 5
    case Parity => 5
    case Effect => 5
    case _ => 25
  }

  /** The cells that a family constrains. */
  function Group(f: Family, v: View): (m: Cells)
    requires SizedView(v)
    ensures |m| >= Lanes(f) && forall l :: 0 <= l < Lanes(f) ==> |m[l]| == 64
  {
    match f
    case StateBoolean => v.row.state
    case AbsorbStart => v.row.state
    case FinalDigest => v.row.state
    case Pairs01 => v.row.p01
    case Pairs23 => v.row.p23
    case Quads => v.row.p0123
    case Parity => v.row.c
    case Effect => v.row.d
    case RhoPi => v.row.b
    case Chi => v.row.chi
    case BaseState => v.row.base
    case ExpectedState => v.row.expected
    case NextState => v.next
  }

  /** The value that a family requires of its cell; none is reported for a cell that is not boolean. */
  function ExpectedCell(f: Family, v: View, l: nat, z: nat): int
    requires SizedView(v) && l < Lanes(f) && z < 64
  {
    match f
    case StateBoolean => 0
    case AbsorbStart =>
      if v.i / BLOCK_ROWS < |v.blocks|
      then AbsorbedCell(v.i / BLOCK_ROWS, BlockCells(v.blocks[v.i / BLOCK_ROWS]), v.prev[l][z], l, z) else 0
    case FinalDigest => BitCell(LanesOfBytes(v.digest)[l][z])
    case Pairs01 => XorExpr(v.row.state[l][z], v.row.state[l + 5][z])
    case Pairs23 => XorExpr(v.row.state[l + 10][z], v.row.state[l + 15][z])
    case Quads => XorExpr(v.row.p01[l][z], v.row.p23[l][z])
    case Parity => XorExpr(v.row.p0123[l][z], v.row.state[l + 20][z])
    case Effect => XorExpr(v.row.c[PrevCol(l)][z], v.row.c[NextCol(l)][Back(z, 1)])
    case RhoPi =>
      var source := PiSource(l);
      var from := Back(z, Rho(source));
      XorExpr(v.row.state[source][from], v.row.d[ColOf(source)][from])
    case Chi => (1 - v.row.b[RightOf(l)][z]) * v.row.b[RightOf(RightOf(l))][z]
    case BaseState => XorExpr(v.row.b[l][z], v.row.chi[l][z])
    case ExpectedState => WithConstant(l, v.row.base[l][z], ConstantCells(|v.blocks|, v.i)[z])
    case NextState => v.row.expected[l][z]
  }

  /** Field equality of a cell and an integer expression. */
  predicate SameElement(p: int, cell: int, expr: int)
    requires p > 1
  {
    (cell - expr) % p == 0
  }

  predicate Passes(p: int, f: Family, v: View, l: nat, z: nat)
    requires p > 1 && SizedView(v) && l < Lanes(f) && z < 64
  {
    if f.StateBoolean? then Group(f, v)[l][z] <= 1 else SameElement(p, Group(f, v)[l][z], ExpectedCell(f, v, l, z))
  }

  ghost predicate AllPass(p: int, f: Family, v: View)
    requires p > 1 && SizedView(v)
  {
    forall l, z {:trigger Group(f, v)[l][z]} :: 0 <= l < Lanes(f) && 0 <= z < 64 ==> Passes(p, f, v, l, z)
  }

  // ----- what passing means -----

  /** The constraints of a family on a row where it applies. */
  ghost predicate Constraint(p: int, f: Family, v: View)
    requires p > 1 && CanonicalView(p, v)
  {
    match f
    case StateBoolean => BooleanC(p, v.row.state, 25)
    case AbsorbStart => AbsorbC(p, SelectorsAt(|v.blocks|, v.i).starts, v.blocks, v.prev, v.row.state)
    case FinalDigest => DigestC(p, 1, v.digest, v.row.state)
    case Pairs01 => P01C(p, 1, v.row)
    case Pairs23 => P23C(p, 1, v.row)
    case Quads => P0123C(p, 1, v.row)
    case Parity => ParityC(p, 1, v.row)
    case Effect => EffectC(p, 1, v.row)
    case RhoPi => RhoPiC(p, 1, v.row)
    case Chi => ChiC(p, 1, v.row)
    case BaseState => BaseC(p, 1, v.row)
    case ExpectedState => ExpectedC(p, 1, ConstantCells(|v.blocks|, v.i), v.row)
    case NextState => LinkC(p, 1, v.row, v.next)
  }

  lemma GatedOn(p: int, cell: int, expr: int)
    requires p > 1
    ensures Vanishes(p, Gated(1, cell, expr)) <==> SameElement(p, cell, expr)
  {
  }

  /** All cells of a family pass exactly when its constraints hold. */
  lemma AllPassExactly(p: int, f: Family, v: View)
    requires Prime(p) && CanonicalView(p, v) && SizedView(v)
    requires f.AbsorbStart? ==> v.i / BLOCK_ROWS < |v.blocks| && v.i == v.i / BLOCK_ROWS * BLOCK_ROWS
    ensures AllPass(p, f, v) <==> Constraint(p, f, v)
  {
    if f.StateBoolean? {
      BooleanPasses(p, v);
    } else if f.AbsorbStart? {
      AbsorbPasses(p, v, v.i / BLOCK_ROWS);
    } else {
      GatedPasses(p, f, v);
    }
  }

  /** The families whose constraint gates one cell by the selector. */
  lemma GatedPasses(p: int, f: Family, v: View)
    requires p > 1 && CanonicalView(p, v) && SizedView(v) && !f.StateBoolean? && !f.AbsorbStart?
    ensures AllPass(p, f, v) <==> Constraint(p, f, v)
  {
    hide XorExpr, Gated, Vanishes, SameElement, PrevCol, NextCol, Back, PiSource, Rho, ColOf, RightOf, WithConstant;
    hide LanesOfBytes, Active, ConstantCells;
    var cells := Group(f, v);
    forall cell, expr ensures Vanishes(p, Gated(1, cell, expr)) <==> SameElement(p, cell, expr) { GatedOn(p, cell, expr); }
    if Constraint(p, f, v) {
      forall l, z | 0 <= l < Lanes(f) && 0 <= z < 64 ensures Passes(p, f, v, l, z) {
        assert SameElement(p, cells[l][z], ExpectedCell(f, v, l, z));
      }
    }
  }

  lemma BooleanPasses(p: int, v: View)
    requires Prime(p) && CanonicalView(p, v) && SizedView(v)
    ensures AllPass(p, StateBoolean, v) <==> BooleanC(p, v.row.state, 25)
  {
    hide Vanishes;
    var cells := Group(StateBoolean, v);
    forall l, z | 0 <= l < 25 && 0 <= z < 64
      ensures Passes(p, StateBoolean, v, l, z) <==> Vanishes(p, cells[l][z] * (cells[l][z] - 1))
    {
      BooleanRoots(p, cells[l][z]);
    }
  }

  /** Where a block starts, its absorb constraints compare the state with the expected start. */
  lemma AbsorbPasses(p: int, v: View, m: nat)
    requires p > 1 && CanonicalView(p, v) && SizedView(v) && m < |v.blocks| && v.i == m * BLOCK_ROWS && v.i / BLOCK_ROWS == m
    ensures AllPass(p, AbsorbStart, v) <==> AbsorbC(p, SelectorsAt(|v.blocks|, v.i).starts, v.blocks, v.prev, v.row.state)
  {
    hide SelectedSum, AbsorbedCell, BlockCells, LanesOfBlock, Gated, Vanishes, SameElement;
    var starts, cur, blocks := SelectorsAt(|v.blocks|, v.i).starts, Group(AbsorbStart, v), v.blocks;
    StartsAt(blocks, m);
    forall l, z | 0 <= l < 25 && 0 <= z < 64
      ensures Vanishes(p, SelectedSum(starts, cur[l][z], AbsorbedCells(blocks, v.prev[l][z], l, z), |blocks|))
         <==> Passes(p, AbsorbStart, v, l, z)
    {
      SelectedOne(starts, cur[l][z], AbsorbedCells(blocks, v.prev[l][z], l, z), m, |blocks|);
      GatedOn(p, cur[l][z], AbsorbedCell(m, BlockCells(blocks[m]), v.prev[l][z], l, z));
    }
  }

  // ----- the order of the checks -----

  /** One pass over a row: lanes in some order, in each lane the bits, for each bit the families. */
  datatype Stage = Stage(families: seq<Family>, lanes: seq<nat>)

  function Natural(n: nat): (lanes: seq<nat>)
    ensures |lanes| == n && forall i :: 0 <= i < n ==> lanes[i] == i
  {
    seq(n, i requires 0 <= i < n => i)
  }

  /** The lanes x + 5y with x outermost. */
  const COLUMN_MAJOR: seq<nat> :=
    [0, 5, 10, 15, 20, 1, 6, 11, 16, 21, 2, 7, 12, 17, 22, 3, 8, 13, 18, 23, 4, 9, 14, 19, 24]

  lemma ColumnMajorCovers()
    ensures |COLUMN_MAJOR| == 25
    ensures forall a :: 0 <= a < 25 ==> COLUMN_MAJOR[a] < 25 && COLUMN_MAJOR[COLUMN_MAJOR[a]] == a
    ensures forall x, y :: 0 <= x < 5 && 0 <= y < 5 ==> COLUMN_MAJOR[5 * x + y] == x + 5 * y
  {
  }

  /** The lanes of a stage are all those of its families. */
  predicate Fitting(st: Stage)
  {
    forall k :: 0 <= k < |st.families| ==> Covers(st.lanes, Lanes(st.families[k]))
  }

  predicate Covers(lanes: seq<nat>, n: nat)
  {
    |lanes| == n && (forall a :: 0 <= a < n ==> lanes[a] < n) && forall l :: 0 <= l < n ==> l in lanes
  }

  lemma NaturalCovers(n: nat)
    ensures Covers(Natural(n), n)
  {
    forall l | 0 <= l < n ensures l in Natural(n) { assert Natural(n)[l] == l; }
  }

  lemma ColumnMajorFits()
    ensures Covers(COLUMN_MAJOR, 25)
  {
    hide COLUMN_MAJOR;
    ColumnMajorCovers();
    forall l | 0 <= l < 25 ensures l in COLUMN_MAJOR { assert COLUMN_MAJOR[COLUMN_MAJOR[l]] == l; }
  }

  const BOOLEANS := Stage([StateBoolean], Natural(25))
  const START := Stage([AbsorbStart], Natural(25))
  const DIGEST := Stage([FinalDigest], Natural(4))
  const PARITIES := Stage([Pairs01, Pairs23, Quads, Parity, Effect], Natural(5))
  const MOVES := Stage([RhoPi], Natural(25))
  const STATES := Stage([Chi, BaseState, ExpectedState, NextState], COLUMN_MAJOR)

  /** A block of the statement starts at this row. */
  predicate Starts(v: View)
  {
    exists k :: 0 <= k < |v.blocks| && v.i == k * BLOCK_ROWS
  }

  /** The pass over a block's first row that compares it with the absorbed state. */
  function StartStages(v: View): seq<Stage>
  {
    if Starts(v) then [START] else []
  }

  /** On an active row the round's passes, else on the final row the digest's. */
  function LastStages(v: View): seq<Stage>
  {
    var sel := SelectorsAt(|v.blocks|, v.i);
    if sel.active == 1 then [PARITIES, MOVES, STATES] else if sel.final == 1 then [DIGEST] else []
  }

  /** The passes over a row, in order. */
  function Stages(v: View): seq<Stage>
  {
    [BOOLEANS] + StartStages(v) + LastStages(v)
  }

  lemma StagesFit(v: View)
    ensures forall s :: 0 <= s < |Stages(v)| ==> Fitting(Stages(v)[s])
  {
    hide COLUMN_MAJOR, Active, ConstantCells, Natural, Starts;
    AllFit();
    hide Fitting, BOOLEANS, START, DIGEST, PARITIES, MOVES, STATES;
  }

  lemma AllFit()
    ensures Fitting(BOOLEANS) && Fitting(START) && Fitting(DIGEST) && Fitting(PARITIES) && Fitting(MOVES) && Fitting(STATES)
  {
    hide COLUMN_MAJOR, Natural;
    NaturalCovers(25);
    NaturalCovers(5);
    NaturalCovers(4);
    ColumnMajorFits();
    hide Covers;
  }

  // ----- the first difference -----

  predicate PassesAt(p: int, v: View, st: Stage, a: nat, z: nat, k: nat)
    requires p > 1 && SizedView(v) && Fitting(st) && a < |st.lanes| && z < 64 && k < |st.families|
  {
    Passes(p, st.families[k], v, st.lanes[a], z)
  }

  ghost predicate StagePasses(p: int, v: View, st: Stage)
    requires p > 1 && SizedView(v) && Fitting(st)
  {
    forall a, z, k :: 0 <= a < |st.lanes| && 0 <= z < 64 && 0 <= k < |st.families| ==> PassesAt(p, v, st, a, z, k)
  }

  /** The order of the loops: lanes, then bits, then families. */
  predicate Earlier(b: nat, y: nat, j: nat, a: nat, z: nat, k: nat)
  {
    b < a || (b == a && (y < z || (y == z && j < k)))
  }

  /** Everything that the stage checks before this cell passes. */
  ghost predicate PassesBefore(p: int, v: View, st: Stage, a: nat, z: nat, k: nat)
    requires p > 1 && SizedView(v) && Fitting(st)
  {
    forall b, y, j :: 0 <= b < |st.lanes| && 0 <= y < 64 && 0 <= j < |st.families| && Earlier(b, y, j, a, z, k) ==>
      PassesAt(p, v, st, b, y, j)
  }

  datatype Spot = Spot(lane: nat, bit: nat, family: nat)

  ghost predicate FirstSpot(p: int, v: View, st: Stage, x: Spot)
    requires p > 1 && SizedView(v) && Fitting(st)
  {
    && x.lane < |st.lanes| && x.bit < 64 && x.family < |st.families|
    && !PassesAt(p, v, st, x.lane, x.bit, x.family) && PassesBefore(p, v, st, x.lane, x.bit, x.family)
  }

  /** The nested loops of one stage. */
  method FirstInStage(p: int, v: View, st: Stage) returns (x: Option<Spot>)
    requires p > 1 && SizedView(v) && Fitting(st)
    ensures x.None? <==> StagePasses(p, v, st)
    ensures x.Some? ==> FirstSpot(p, v, st, x.value)
  {
    hide PassesAt, SizedView;
    for a := 0 to |st.lanes|
      invariant forall b, y, j :: 0 <= b < a && 0 <= y < 64 && 0 <= j < |st.families| ==> PassesAt(p, v, st, b, y, j)
    {
      for z := 0 to 64
        invariant forall y, j :: 0 <= y < z && 0 <= j < |st.families| ==> PassesAt(p, v, st, a, y, j)
      {
        for k := 0 to |st.families|
          invariant forall j :: 0 <= j < k ==> PassesAt(p, v, st, a, z, j)
        {
          if !PassesAt(p, v, st, a, z, k) { return Some(Spot(a, z, k)); }
        }
      }
    }
    return None;
  }

  /** A stage passes exactly when each of its families does. */
  lemma StagePassesExactly(p: int, v: View, st: Stage)
    requires p > 1 && SizedView(v) && Fitting(st)
    ensures StagePasses(p, v, st) <==> forall k :: 0 <= k < |st.families| ==> AllPass(p, st.families[k], v)
  {
    hide Passes, SizedView, Lanes, Group;
    if StagePasses(p, v, st) {
      forall k | 0 <= k < |st.families| ensures AllPass(p, st.families[k], v) {
        forall l, z | 0 <= l < Lanes(st.families[k]) && 0 <= z < 64 ensures Passes(p, st.families[k], v, l, z) {
          assert Covers(st.lanes, Lanes(st.families[k])) && l in st.lanes;
          var a :| 0 <= a < |st.lanes| && st.lanes[a] == l;
          assert PassesAt(p, v, st, a, z, k);
        }
      }
    }
    if forall k :: 0 <= k < |st.families| ==> AllPass(p, st.families[k], v) {
      forall a, z, k | 0 <= a < |st.lanes| && 0 <= z < 64 && 0 <= k < |st.families| ensures PassesAt(p, v, st, a, z, k) {
        var cells := Group(st.families[k], v);
        var cell := cells[st.lanes[a]][z];
      }
    }
  }

  // ----- a row -----

  ghost predicate ListPasses(p: int, v: View, list: seq<Stage>)
    requires p > 1 && SizedView(v)
  {
    forall t :: 0 <= t < |list| ==> Fitting(list[t]) && StagePasses(p, v, list[t])
  }

  lemma ListsPass(p: int, v: View, a: seq<Stage>, b: seq<Stage>)
    requires p > 1 && SizedView(v)
    ensures ListPasses(p, v, a + b) <==> ListPasses(p, v, a) && ListPasses(p, v, b)
  {
    hide Fitting, StagePasses, SizedView;
    var ab := a + b;
    if ListPasses(p, v, ab) {
      forall t | 0 <= t < |a| ensures Fitting(a[t]) && StagePasses(p, v, a[t]) { assert ab[t] == a[t]; }
      forall t | 0 <= t < |b| ensures Fitting(b[t]) && StagePasses(p, v, b[t]) { assert ab[|a| + t] == b[t]; }
    }
  }

  datatype Failure = Failure(row: nat, family: Family, lane: nat, bit: nat, actual: int, expected: int)

  /** The report names the first cell of the row that differs. */
  ghost predicate FirstInRow(p: int, at: nat, v: View, f: Failure)
    requires p > 1 && SizedView(v)
  {
    exists s, x :: 0 <= s < |Stages(v)| && Reported(p, at, v, f, s, x)
  }

  ghost predicate Reported(p: int, at: nat, v: View, f: Failure, s: nat, x: Spot)
    requires p > 1 && SizedView(v) && s < |Stages(v)|
  {
    var st := Stages(v)[s];
    && ListPasses(p, v, Stages(v)[..s]) && Fitting(st) && FirstSpot(p, v, st, x)
    && f == FailureAt(at, v, st.families[x.family], st.lanes[x.lane], x.bit)
  }

  function FailureAt(at: nat, v: View, f: Family, l: nat, z: nat): Failure
    requires SizedView(v) && l < Lanes(f) && z < 64
  {
    Failure(at, f, l, z, Group(f, v)[l][z], ExpectedCell(f, v, l, z))
  }

  /** The stages of a row, in order. */
  method CheckRow(p: int, at: nat, v: View) returns (f: Option<Failure>)
    requires Prime(p) && CanonicalView(p, v)
    ensures SizedView(v)
    ensures f.None? <==> Constraints(p, v)
    ensures f.Some? ==> FirstInRow(p, at, v, f.value)
  {
    assert p > 1;
    CanonicalIsSized(p, v);
    StagesFit(v);
    StagesPassExactly(p, v);
    hide Prime, CanonicalView, SizedView, Stages, StagePasses, FirstSpot, Constraints, Fitting, FailureAt;
    var stages := Stages(v);
    for s := 0 to |stages|
      invariant ListPasses(p, v, stages[..s])
    {
      var x := FirstInStage(p, v, stages[s]);
      if x.Some? {
        SpotInside(p, v, stages[s], x.value);
        f := Some(FailureAt(at, v, stages[s].families[x.value.family], stages[s].lanes[x.value.lane], x.value.bit));
        assert Reported(p, at, v, f.value, s, x.value);
        return;
      }
      assert stages[..s + 1] == stages[..s] + [stages[s]];
    }
    assert stages[..|stages|] == stages;
    return None;
  }

  lemma SpotInside(p: int, v: View, st: Stage, x: Spot)
    requires p > 1 && SizedView(v) && Fitting(st) && FirstSpot(p, v, st, x)
    ensures x.lane < |st.lanes| && x.bit < 64 && x.family < |st.families| && st.lanes[x.lane] < Lanes(st.families[x.family])
  {
  }

  /** All constraints at row i, given the neighbouring states. */
  ghost predicate Constraints(p: int, v: View)
    requires p > 1 && CanonicalView(p, v)
  {
    var sel := SelectorsAt(|v.blocks|, v.i);
    && BooleanC(p, v.row.state, 25)
    && AbsorbC(p, sel.starts, v.blocks, v.prev, v.row.state)
    && RoundC(p, sel.active, sel.rc, v.row, v.next)
    && DigestC(p, sel.final, v.digest, v.row.state)
  }

  ghost predicate EachPass(p: int, v: View, fs: seq<Family>)
    requires p > 1 && SizedView(v)
  {
    forall k :: 0 <= k < |fs| ==> AllPass(p, fs[k], v)
  }

  lemma EachOf(p: int, v: View, f: Family, rest: seq<Family>)
    requires p > 1 && SizedView(v)
    ensures EachPass(p, v, [f] + rest) <==> AllPass(p, f, v) && EachPass(p, v, rest)
    ensures EachPass(p, v, [])
  {
    hide AllPass, SizedView;
    var fs := [f] + rest;
    assert fs[0] == f;
    if EachPass(p, v, fs) {
      forall k | 0 <= k < |rest| ensures AllPass(p, rest[k], v) { assert fs[k + 1] == rest[k]; }
    }
  }

  lemma OneStage(p: int, v: View, st: Stage)
    requires p > 1 && SizedView(v) && Fitting(st)
    ensures ListPasses(p, v, [st]) <==> EachPass(p, v, st.families)
  {
    hide AllPass, SizedView, Fitting;
    StagePassesExactly(p, v, st);
    hide StagePasses;
    var list := [st];
    assert list[0] == st;
  }

  lemma BooleanStage(p: int, v: View)
    requires Prime(p) && CanonicalView(p, v) && SizedView(v)
    ensures ListPasses(p, v, [BOOLEANS]) <==> BooleanC(p, v.row.state, 25)
  {
    assert p > 1;
    AllFit();
    hide AllPass, EachPass, ListPasses, SizedView, Fitting, BooleanC, Prime;
    OneStage(p, v, BOOLEANS);
    assert BOOLEANS.families == [StateBoolean] + [];
    EachOf(p, v, StateBoolean, []);
    AllPassExactly(p, StateBoolean, v);
  }

  lemma RowInBlock(i: nat, k: nat)
    requires i == k * BLOCK_ROWS
    ensures i / BLOCK_ROWS == k
  {
  }

  lemma StartStage(p: int, v: View)
    requires Prime(p) && CanonicalView(p, v) && SizedView(v)
    ensures ListPasses(p, v, StartStages(v)) <==> AbsorbC(p, SelectorsAt(|v.blocks|, v.i).starts, v.blocks, v.prev, v.row.state)
  {
    assert p > 1;
    hide AllPass, EachPass, SizedView, Fitting, AbsorbC, Prime, SelectorsAt;
    AllFit();
    if Starts(v) {
      var k :| 0 <= k < |v.blocks| && v.i == k * BLOCK_ROWS;
      RowInBlock(v.i, k);
      OneStage(p, v, START);
      assert START.families == [AbsorbStart] + [];
      EachOf(p, v, AbsorbStart, []);
      AllPassExactly(p, AbsorbStart, v);
      hide ListPasses;
    } else {
      AbsorbOff(p, v.blocks, v.i, v.prev, v.row.state);
    }
  }

  /** The final row is not an active one. */
  lemma FinalIsInactive(n: nat, i: nat)
    requires Active(n, i) == 1
    ensures SelectorsAt(n, i).final == 0
  {
    hide Active, ConstantCells;
    if i == n * BLOCK_ROWS - 1 { RowSelectors(n, n - 1, ROUNDS); }
  }

  lemma RoundIdle(p: int, n: nat, i: nat, row: Row, next: Cells)
    requires p > 1 && CanonicalRow(p, row) && Canonical(p, next, 25) && Active(n, i) != 1
    ensures RoundC(p, Active(n, i), ConstantCells(n, i), row, next)
  {
    hide RoundC, CanonicalRow, Canonical, ConstantCells;
    RoundOff(p, ConstantCells(n, i), row, next);
  }

  lemma ParityStage(p: int, v: View)
    requires Prime(p) && CanonicalView(p, v) && SizedView(v)
    ensures ListPasses(p, v, [PARITIES])
       <==> P01C(p, 1, v.row) && P23C(p, 1, v.row) && P0123C(p, 1, v.row) && ParityC(p, 1, v.row) && EffectC(p, 1, v.row)
  {
    assert p > 1;
    AllFit();
    hide AllPass, EachPass, ListPasses, SizedView, Fitting, Prime, P01C, P23C, P0123C, ParityC, EffectC;
    OneStage(p, v, PARITIES);
    assert PARITIES.families == [Pairs01] + ([Pairs23] + ([Quads] + ([Parity] + ([Effect] + []))));
    EachOf(p, v, Pairs01, [Pairs23] + ([Quads] + ([Parity] + ([Effect] + []))));
    EachOf(p, v, Pairs23, [Quads] + ([Parity] + ([Effect] + [])));
    EachOf(p, v, Quads, [Parity] + ([Effect] + []));
    EachOf(p, v, Parity, [Effect] + []);
    EachOf(p, v, Effect, []);
    AllPassExactly(p, Pairs01, v);
    AllPassExactly(p, Pairs23, v);
    AllPassExactly(p, Quads, v);
    AllPassExactly(p, Parity, v);
    AllPassExactly(p, Effect, v);
  }

  lemma MoveStage(p: int, v: View)
    requires Prime(p) && CanonicalView(p, v) && SizedView(v)
    ensures ListPasses(p, v, [MOVES]) <==> RhoPiC(p, 1, v.row)
  {
    assert p > 1;
    AllFit();
    hide AllPass, EachPass, ListPasses, SizedView, Fitting, Prime, RhoPiC;
    OneStage(p, v, MOVES);
    assert MOVES.families == [RhoPi] + [];
    EachOf(p, v, RhoPi, []);
    AllPassExactly(p, RhoPi, v);
  }

  lemma StateStage(p: int, v: View)
    requires Prime(p) && CanonicalView(p, v) && SizedView(v)
    ensures ListPasses(p, v, [STATES])
       <==> ChiC(p, 1, v.row) && BaseC(p, 1, v.row) && ExpectedC(p, 1, ConstantCells(|v.blocks|, v.i), v.row) && LinkC(p, 1, v.row, v.next)
  {
    assert p > 1;
    AllFit();
    hide AllPass, EachPass, ListPasses, SizedView, CanonicalView, Fitting, Prime, ConstantCells, COLUMN_MAJOR, Constraint;
    OneStage(p, v, STATES);
    assert STATES.families == [Chi] + ([BaseState] + ([ExpectedState] + ([NextState] + [])));
    EachOf(p, v, Chi, [BaseState] + ([ExpectedState] + ([NextState] + [])));
    EachOf(p, v, BaseState, [ExpectedState] + ([NextState] + []));
    EachOf(p, v, ExpectedState, [NextState] + []);
    EachOf(p, v, NextState, []);
    AllPassExactly(p, Chi, v);
    AllPassExactly(p, BaseState, v);
    AllPassExactly(p, ExpectedState, v);
    AllPassExactly(p, NextState, v);
    StateConstraints(p, v);
  }

  lemma StateConstraints(p: int, v: View)
    requires p > 1 && CanonicalView(p, v)
    ensures Constraint(p, Chi, v) && Constraint(p, BaseState, v) && Constraint(p, ExpectedState, v) && Constraint(p, NextState, v)
       <==> ChiC(p, 1, v.row) && BaseC(p, 1, v.row) && ExpectedC(p, 1, ConstantCells(|v.blocks|, v.i), v.row) && LinkC(p, 1, v.row, v.next)
  {
    hide ChiC, BaseC, ExpectedC, LinkC, ConstantCells;
  }

  lemma DigestStage(p: int, v: View)
    requires Prime(p) && CanonicalView(p, v) && SizedView(v)
    ensures ListPasses(p, v, [DIGEST]) <==> DigestC(p, 1, v.digest, v.row.state)
  {
    assert p > 1;
    AllFit();
    hide AllPass, EachPass, ListPasses, SizedView, Fitting, Prime, DigestC;
    OneStage(p, v, DIGEST);
    assert DIGEST.families == [FinalDigest] + [];
    EachOf(p, v, FinalDigest, []);
    AllPassExactly(p, FinalDigest, v);
  }

  lemma ActiveStages(p: int, v: View)
    requires Prime(p) && CanonicalView(p, v) && SizedView(v)
    ensures ListPasses(p, v, [PARITIES, MOVES, STATES]) <==> RoundC(p, 1, ConstantCells(|v.blocks|, v.i), v.row, v.next)
  {
    assert p > 1;
    hide ListPasses, SizedView, CanonicalView, Prime, ConstantCells, PARITIES, MOVES, STATES;
    hide P01C, P23C, P0123C, ParityC, EffectC, RhoPiC, ChiC, BaseC, ExpectedC, LinkC;
    ParityStage(p, v);
    MoveStage(p, v);
    StateStage(p, v);
    assert [PARITIES, MOVES, STATES] == [PARITIES] + ([MOVES] + [STATES]);
    ListsPass(p, v, [MOVES], [STATES]);
    ListsPass(p, v, [PARITIES], [MOVES] + [STATES]);
  }

  lemma RestStages(p: int, v: View)
    requires Prime(p) && CanonicalView(p, v) && SizedView(v)
    ensures var sel := SelectorsAt(|v.blocks|, v.i);
            ListPasses(p, v, LastStages(v)) <==> RoundC(p, sel.active, sel.rc, v.row, v.next) && DigestC(p, sel.final, v.digest, v.row.state)
  {
    assert p > 1;
    ViewParts(p, v);
    hide CanonicalView, SizedView, Prime, Active, ConstantCells, RoundC, DigestC, PARITIES, MOVES, STATES, DIGEST, CanonicalRow, Canonical;
    var n, sel := |v.blocks|, SelectorsAt(|v.blocks|, v.i);
    DigestOff(p, v.digest, v.row.state);
    if sel.active == 1 {
      FinalIsInactive(n, v.i);
      ActiveStages(p, v);
    } else {
      RoundIdle(p, n, v.i, v.row, v.next);
      if sel.final == 1 { DigestStage(p, v); }
    }
  }

  lemma ViewParts(p: int, v: View)
    requires CanonicalView(p, v)
    ensures Canonical(p, v.row.state, 25) && Canonical(p, v.next, 25) && CanonicalRow(p, v.row) && |v.digest| == 32
  {
  }

  lemma StagesPassExactly(p: int, v: View)
    requires Prime(p) && CanonicalView(p, v) && SizedView(v)
    ensures ListPasses(p, v, Stages(v)) <==> Constraints(p, v)
  {
    assert p > 1;
    hide ListPasses, Prime, CanonicalView, SizedView, BOOLEANS, StartStages, LastStages, SelectorsAt, BooleanC, AbsorbC, RoundC, DigestC;
    BooleanStage(p, v);
    StartStage(p, v);
    RestStages(p, v);
    ListsPass(p, v, [BOOLEANS], StartStages(v));
    ListsPass(p, v, [BOOLEANS] + StartStages(v), LastStages(v));
  }

  // ----- the checker -----

  function ViewAt(y: Layout, trace: seq<Row>, blocks: seq<RateBlock>, digest: seq<Byte>, r: nat): View
    requires ValidLayout(y) && |trace| == N_ROWS && r < N_ROWS
  {
    View(y.logical[r], blocks, digest, trace[Neighbor(y, r, -1)].state, trace[r], trace[Neighbor(y, r, 1)].state)
  }

  lemma ViewIsRow(p: int, y: Layout, trace: seq<Row>, blocks: seq<RateBlock>, digest: seq<Byte>, r: nat)
    requires Prime(p) && ValidLayout(y) && |trace| == N_ROWS && |digest| == 32 && r < N_ROWS
    requires forall i :: 0 <= i < N_ROWS ==> CanonicalRow(p, trace[i])
    ensures CanonicalView(p, ViewAt(y, trace, blocks, digest, r))
    ensures Constraints(p, ViewAt(y, trace, blocks, digest, r)) <==> HoldsAtPhysical(y, trace, Check(p, blocks, digest), r)
  {
    assert p > 1;
    StatesCanonical(p, trace[Neighbor(y, r, -1)]);
    StatesCanonical(p, trace[Neighbor(y, r, 1)]);
    StatesCanonical(p, trace[r]);
    hide Prime, CanonicalRow, Canonical, SelectorsAt, BooleanC, AbsorbC, RoundC, DigestC;
  }

  lemma StatesCanonical(p: int, row: Row)
    requires CanonicalRow(p, row)
    ensures Canonical(p, row.state, 25)
  {
  }

  lemma PhysicalCanonical(p: int, y: Layout, trace: seq<Row>)
    requires ValidLayout(y) && |trace| == N_ROWS && CanonicalRows(p, LogicalRows(y, trace))
    ensures forall r :: 0 <= r < N_ROWS ==> CanonicalRow(p, trace[r])
  {
    hide CanonicalRow;
    forall r | 0 <= r < N_ROWS ensures CanonicalRow(p, trace[r]) {
      assert CanonicalRow(p, LogicalRows(y, trace)[y.logical[r]]);
    }
  }

  /** The first physical row that differs, and in it the first cell. */
  ghost predicate FirstInTrace(p: int, y: Layout, trace: seq<Row>, blocks: seq<RateBlock>, digest: seq<Byte>, f: Failure)
    requires p > 1 && ValidLayout(y) && |trace| == N_ROWS
  {
    && f.row < N_ROWS
    && (forall r :: 0 <= r < f.row ==> HoldsAtPhysical(y, trace, Check(p, blocks, digest), r))
    && var v := ViewAt(y, trace, blocks, digest, f.row);
    SizedView(v) && FirstInRow(p, f.row, v, f)
  }

  /** Goes through the physical rows in order, reading the neighbours that the layout gives. */
  method FirstFailure(p: int, y: Layout, trace: seq<Row>, blocks: seq<RateBlock>, digest: seq<Byte>) returns (f: Option<Failure>)
    requires Prime(p) && ValidLayout(y) && |trace| == N_ROWS && |digest| == 32
    requires CanonicalRows(p, LogicalRows(y, trace))
    ensures f.None? <==> Satisfied(p, y, trace, blocks, digest)
    ensures f.Some? ==> FirstInTrace(p, y, trace, blocks, digest, f.value)
  {
    assert p > 1;
    PhysicalCanonical(p, y, trace);
    hide CanonicalRow, Prime, Constraints, CanonicalView, SizedView, FirstInRow, HoldsAtPhysical, ViewAt;
    for r := 0 to N_ROWS
      invariant forall i :: 0 <= i < r ==> HoldsAtPhysical(y, trace, Check(p, blocks, digest), i)
    {
      ViewIsRow(p, y, trace, blocks, digest, r);
      f := CheckRow(p, r, ViewAt(y, trace, blocks, digest, r));
      if f.Some? {
        FailureRow(p, r, ViewAt(y, trace, blocks, digest, r), f.value);
        return;
      }
    }
    return None;
  }

  lemma FailureRow(p: int, at: nat, v: View, f: Failure)
    requires p > 1 && SizedView(v) && FirstInRow(p, at, v, f)
    ensures f.row == at
  {
    hide SizedView, Stages, FirstSpot, ListPasses;
  }

  /** On the trace the builder makes, the checker reports nothing exactly when the digest is right. */
  method DebugFirstFailure(p: int, y: Layout, preimage: seq<Byte>, digest: seq<Byte>) returns (f: Option<Failure>)
    requires Prime(p) && ValidLayout(y) && |digest| == 32 && Fits(PaddedBlocks(preimage))
    ensures f.None? <==> Digest(Sponge(LaneBlocks(PaddedBlocks(preimage)))) == digest
  {
    hide Satisfied, LaneBlocks, Sponge, Digest, BuiltRows, LogicallySatisfied, PaddedBlocks, FirstInTrace;
    var blocks := PaddedBlocks(preimage);
    var trace := BuildTrace(blocks, y);
    BuiltRowsExact(p, blocks, digest);
    f := FirstFailure(p, y, trace, blocks, digest);
    Completeness(p, y, trace, blocks, digest);
  }
}
