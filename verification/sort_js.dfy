/** `sortCreepParts` as the JavaScript copy writes it. The counting, TOUGH,
    second MOVE, centre and leftover stages are the same code as in the TypeScript
    version and reuse its methods; the burying stage is written as a `switch`, and
    the first MOVE count is computed in floating point, which makes `Array(n)` throw
    a RangeError for some inputs. */
module SortJs {
  import opened CreepParts
  import opened PartOrder
  import SortTs

  /** The exception `Array(n)` throws for a length that is not a whole number. */
  datatype JsError = RangeError

  /** A value, or the exception that ends the call. */
  datatype Result<T> = Success(value: T) | Failure(error: JsError)

  /** A number `Array(n)` accepts as a length: whole and not negative. */
  predicate IsArrayLength(x: real) {
    x >= 0.0 && x.Floor as real == x
  }

  /** `Array(n).fill(k)` with a numeric n: n copies of k, or a RangeError. */
  function ArrayFill(n: real, k: Kind): (r: Result<seq<Kind>>)
    ensures r.Success? <==> IsArrayLength(n)
    ensures r.Success? ==> |r.value| as real == n && forall i :: 0 <= i < |r.value| ==> r.value[i] == k
  {
    if IsArrayLength(n) then Success(Repeat(k, n.Floor)) else Failure(RangeError)
  }

  /** The first MOVE count as the JavaScript copy computes it from m MOVE parts:
      m / 2 in floating point, plus one when m is odd. It is a valid array length
      exactly when m is even, and then it is the rounded-up half the TypeScript
      version uses. For odd m it is (m + 1) / 2 + 0.5. */
  function FirstMoveCount(m: nat): (x: real)
    ensures IsArrayLength(x) <==> m % 2 == 0
    ensures m % 2 == 0 ==> x == HalfUp(m) as real
    ensures m % 2 == 1 ==> x == HalfUp(m) as real + 0.5
  {
    var half := m as real / 2.0;
    var x := if m % 2 == 1 then half + 1.0 else half;
    HalfUpIsCeiling(m);
    var q := m / 2;
    if m % 2 == 1 then
      assert m as real == 2.0 * q as real + 1.0;
      assert x == q as real + 1.5;
      assert x.Floor == q + 1;
      x
    else
      assert m as real == 2.0 * q as real;
      assert x == q as real;
      x
  }

  /** The first MOVE stage of the JavaScript copy: fails when the MOVE count is odd,
      and otherwise takes the same block as the TypeScript stage. */
  function FirstMovesJs(c: Counts): (r: Result<Taken>)
    requires Valid(c)
    ensures r.Success? <==> c[Move] % 2 == 0
    ensures r.Success? ==> r.value == FirstMoves(c)
  {
    var m := c[Move];
    match ArrayFill(FirstMoveCount(m), Move)
    case Failure(e) => Failure(e)
    case Success(block) =>
      assert block == Repeat(Move, HalfUp(m));
      Success(Taken(c[Move := m - |block|], block))
  }

  /** The six blocks the JavaScript copy cuts from a count table, or the exception it
      throws on the way. It throws exactly when the table holds a positive, even
      number of MOVE parts (one is buried, which leaves an odd count for the first
      MOVE block), and otherwise cuts the same blocks as the TypeScript version. */
  function CutJs(c: Counts, layout: seq<Kind>): (r: Result<Blocks>)
    requires Valid(c)
    ensures r.Failure? <==> c[Move] > 0 && c[Move] % 2 == 0
    ensures r.Success? ==> r.value == Cut(c, layout)
  {
    var haveRangedAttack := c[RangedAttack] > 0;
    var buried := Bury(Unique(layout), c);
    var front := Front(buried.left);
    assert front.left[Move] == MovesAfterBurying(c);
    ParityAfterBurying(c);
    match FirstMovesJs(front.left)
    case Failure(e) => Failure(e)
    case Success(move1) =>
      assert Cut(c, layout) == Finish(layout, haveRangedAttack, front.parts, move1, buried.parts);
      Success(Finish(layout, haveRangedAttack, front.parts, move1, buried.parts))
  }

  /** What the JavaScript `sortCreepParts` returns or throws for parts and a layout.
      It throws exactly when the input holds a positive, even number of MOVE parts;
      when it returns, it only reorders the parts. */
  function SortedPartsJs(parts: seq<Kind>, layout: seq<Kind>): (r: Result<seq<Kind>>)
    ensures r.Failure? <==> multiset(parts)[Move] > 0 && multiset(parts)[Move] % 2 == 0
    ensures r.Success? ==> multiset(r.value) == multiset(parts)
  {
    match CutJs(CountParts(parts), layout)
    case Failure(e) => Failure(e)
    case Success(b) =>
      assert Flatten(b) == SortedParts(parts, layout);
      Success(Flatten(b))
  }

  /** Burying one MOVE leaves an even count exactly when the table held a positive,
      odd number of MOVE parts or none at all. */
  lemma ParityAfterBurying(c: Counts)
    requires Valid(c)
    ensures MovesAfterBurying(c) % 2 == 0 <==> !(c[Move] > 0 && c[Move] % 2 == 0)
  {
    var m := c[Move];
    if m > 0 {
      assert (m - 1) % 2 == 0 <==> m % 2 == 1;
    }
  }

  /** The JavaScript copy throws exactly when the input holds a positive, even number
      of MOVE parts, and otherwise returns what the TypeScript version returns. */
  lemma JsAgreesWithTs(parts: seq<Kind>, layout: seq<Kind>)
    ensures var m := multiset(parts)[Move];
            SortedPartsJs(parts, layout)
            == if m > 0 && m % 2 == 0 then Failure(RangeError) else Success(SortedParts(parts, layout))
  {
  }

  /** Two MOVE parts: the TypeScript version returns both, the JavaScript copy
      buries one, computes 0.5 + 1 for the first MOVE block and throws. */
  lemma TwoMovesThrow()
    ensures SortedPartsJs([Move, Move], []) == Failure(RangeError)
    ensures multiset(SortedParts([Move, Move], [])) == multiset([Move, Move])
  {
    assert SortedPartsJs([Move, Move], []) == Failure(RangeError) by {
      assert multiset([Move, Move])[Move] == 2;
      JsAgreesWithTs([Move, Move], []);
    }
  }

  /** Stage 1 as a `switch`: the `break` under the MOVE, RANGED_ATTACK and TOUGH
      labels leaves the switch only, so those kinds are skipped and the loop goes on. */
  method BuryParts(table: SortTs.PartCountMap, unique: seq<Kind>) returns (buried: seq<Kind>)
    requires Valid(table.counts)
    modifies table
    ensures buried == Bury(unique, old(table.counts)).parts
    ensures table.counts == Bury(unique, old(table.counts)).left
  {
    ghost var start := table.counts;
    buried := [];
    for i := 0 to |unique|
      invariant Valid(table.counts)
      invariant BuryPass(unique[i..], table.counts, buried) == BuryPass(unique, start, [])
    {
      assert unique[i..][1..] == unique[i + 1..];
      var part := unique[i];
      match part
      case Move | RangedAttack | Tough =>
      case _ =>
        var partCount := table.counts[part];
        if partCount > 0 {
          buried := SortTs.TakePart(table, part, buried);
        }
    }
    assert unique[|unique|..] == [];
    var movePartsTotal := table.counts[Move];
    if movePartsTotal > 0 {
      buried := SortTs.TakePart(table, Move, buried);
    }
    var rangedAttackPartsTotal := table.counts[RangedAttack];
    if rangedAttackPartsTotal > 0 {
      buried := SortTs.TakePart(table, RangedAttack, buried);
    }
  }

  /** Stage 3 in floating point: half the MOVE count, plus one when it is odd, as
      the length of the first MOVE block. An odd count throws before the table is
      touched. */
  method FirstMoveParts(table: SortTs.PartCountMap) returns (r: Result<seq<Kind>>)
    requires Valid(table.counts)
    modifies table
    ensures Valid(table.counts)
    ensures r.Success? <==> old(table.counts)[Move] % 2 == 0
    ensures r.Failure? ==> r == Failure(RangeError) && table.counts == old(table.counts)
    ensures r.Success? ==>
              r.value == FirstMoves(old(table.counts)).parts && table.counts == FirstMoves(old(table.counts)).left
  {
    var movePartsTotal := table.counts[Move];
    var moveParts1MoveCount := movePartsTotal as real / 2.0;
    if movePartsTotal % 2 == 1 {
      moveParts1MoveCount := moveParts1MoveCount + 1.0;
    }
    assert moveParts1MoveCount == FirstMoveCount(movePartsTotal);
    var filled := ArrayFill(moveParts1MoveCount, Move);
    match filled
    case Failure(e) =>
      r := Failure(e);
    case Success(moveParts1) =>
      r := Success(moveParts1);
      table.Set(Move, movePartsTotal - moveParts1MoveCount.Floor);
  }

  /** The six blocks the JavaScript copy produces, concatenated in output order, are
      its result for the parts and the layout. */
  lemma Assemble(parts: seq<Kind>, layout: seq<Kind>, front: seq<Kind>, move1: seq<Kind>,
                 centre: seq<Kind>, extra: seq<Kind>, move2: seq<Kind>, buried: seq<Kind>)
    requires var c := CountParts(parts);
             var bt := Bury(Unique(layout), c);
             var ft := Front(bt.left);
             var mt := FirstMoves(ft.left);
             var st := SecondMoves(mt.left, c[RangedAttack] > 0);
             var ct := Centre(layout, c[RangedAttack] > 0, st.left);
             && ft.left[Move] % 2 == 0
             && buried == bt.parts && front == ft.parts && move1 == mt.parts
             && move2 == st.parts && centre == ct.parts && extra == Grouped(ct.left)
    ensures SortedPartsJs(parts, layout) == Success([] + front + move1 + centre + extra + move2 + buried)
  {
    PushOntoEmpty(front);
  }

  /** The whole JavaScript sort: the stages in source order, stopping with the
      RangeError when the first MOVE block cannot be built. */
  method SortCreepParts(parts: seq<Kind>, layout: seq<Kind>) returns (r: Result<seq<Kind>>)
    ensures r == SortedPartsJs(parts, layout)
    ensures r.Failure? <==> multiset(parts)[Move] > 0 && multiset(parts)[Move] % 2 == 0
    ensures r.Success? ==> r.value == SortedParts(parts, layout) && multiset(r.value) == multiset(parts)
  {
    JsAgreesWithTs(parts, layout);
    var table := new SortTs.PartCountMap();
    SortTs.CountInto(table, parts);
    var unique := SortTs.UniqueKinds(layout);
    var haveRangedAttack := table.counts[RangedAttack] > 0;
    var buriedParts := BuryParts(table, unique);
    var frontToughParts := SortTs.FrontToughParts(table);
    var firstMoves := FirstMoveParts(table);
    match firstMoves
    case Failure(e) =>
      r := Failure(e);
    case Success(moveParts1) =>
      var moveParts2 := SortTs.SecondMoveParts(table, haveRangedAttack);
      var centerLayoutParts := SortTs.CentreLayoutParts(table, layout, haveRangedAttack);
      var additionalParts := SortTs.AdditionalParts(table);
      var resultParts := [];
      resultParts := resultParts + frontToughParts;
      resultParts := resultParts + moveParts1;
      resultParts := resultParts + centerLayoutParts;
      resultParts := resultParts + additionalParts;
      resultParts := resultParts + moveParts2;
      resultParts := resultParts + buriedParts;
      Assemble(parts, layout, frontToughParts, moveParts1, centerLayoutParts, additionalParts, moveParts2, buriedParts);
      r := Success(resultParts);
  }
}
