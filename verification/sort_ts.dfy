/** `sortCreepParts` as the TypeScript version writes it: one mutable count map
    threaded through the stages, each stage building its block with `push`. Every
    stage is proved to compute what the matching function of PartOrder describes. */
module SortTs {
  import opened CreepParts
  import opened PartOrder

  /** The `Map<string, number>` of per-kind counts that every stage reads and updates. */
  class PartCountMap {
    var counts: Counts

    /** The map literal with every kind present and count 0. */
    constructor ()
      ensures counts == Zero
    {
      counts := Zero;
    }

    /** `set(k, n)`: overwrite one entry and leave the others alone. */
    method Set(k: Kind, n: int)
      modifies this
      ensures counts == old(counts)[k := n]
    {
      counts := counts[k := n];
    }
  }

  /** The zero table is complete and non-negative. */
  lemma ZeroValid()
    ensures Valid(Zero) && forall k :: Zero[k] == 0
  {
    forall k: Kind ensures k in Zero && Zero[k] == 0 {
      match k
      case Tough =>
      case Move =>
      case Carry =>
      case Work =>
      case Claim =>
      case Heal =>
      case Attack =>
      case RangedAttack =>
    }
  }

  /** Stage 0: one `set(part, get(part) + 1)` per part fills the zero table with the
      count of every kind. */
  method CountInto(table: PartCountMap, parts: seq<Kind>)
    requires table.counts == Zero
    modifies table
    ensures table.counts == CountParts(parts)
  {
    ZeroValid();
    for i := 0 to |parts|
      invariant Valid(table.counts)
      invariant forall k :: table.counts[k] == multiset(parts[..i])[k]
    {
      assert parts[..i + 1] == parts[..i] + [parts[i]];
      table.Set(parts[i], table.counts[parts[i]] + 1);
    }
    assert parts[..|parts|] == parts;
    SameTable(table.counts, CountParts(parts));
  }

  /** Stage 0: the layout's kinds added one by one to a `Set`, which keeps the first
      occurrence of each. */
  method UniqueKinds(layout: seq<Kind>) returns (unique: seq<Kind>)
    ensures unique == Unique(layout)
  {
    unique := [];
    for i := 0 to |layout|
      invariant unique == Unique(layout[..i])
    {
      assert layout[..i + 1][..i] == layout[..i];
      if layout[i] !in unique {
        unique := unique + [layout[i]];
      }
    }
    assert layout[..|layout|] == layout;
  }

  /** The step the burying and centre stages repeat for a kind k that is in stock:
      push k and lower its count by one. */
  method TakePart(table: PartCountMap, k: Kind, acc: seq<Kind>) returns (acc': seq<Kind>)
    requires Valid(table.counts) && table.counts[k] > 0
    modifies table
    ensures Valid(table.counts)
    ensures Taken(table.counts, acc') == TakeOne(k, old(table.counts), acc)
  {
    acc' := acc + [k];
    table.Set(k, table.counts[k] - 1);
  }

  /** Stage 1: bury one part of each layout kind other than MOVE, RANGED_ATTACK and
      TOUGH, then one MOVE, then one RANGED_ATTACK. */
  method BuryParts(table: PartCountMap, unique: seq<Kind>) returns (buried: seq<Kind>)
    requires Valid(table.counts)
    modifies table
    ensures buried == Bury(unique, old(table.counts)).parts
    ensures table.counts == Bury(unique, old(table.counts)).left
  {
    ghost var start := table.counts;
    buried := [];
    for i := 0 to |unique|
      invariant Valid(table.counts)
      invariant BuryPass(unique[i..], table.counts, buried) == BuryPass(unique, start, [])
    {
      assert unique[i..][1..] == unique[i + 1..];
      var part := unique[i];
      match part
      case Move | RangedAttack | Tough =>
        continue;
      case _ =>
      var partCount := table.counts[part];
      if partCount > 0 {
        buried := TakePart(table, part, buried);
      }
    }
    assert unique[|unique|..] == [];
    var movePartsTotal := table.counts[Move];
    if movePartsTotal > 0 {
      buried := TakePart(table, Move, buried);
    }
    var rangedAttackPartsTotal := table.counts[RangedAttack];
    if rangedAttackPartsTotal > 0 {
      buried := TakePart(table, RangedAttack, buried);
    }
  }

  /** Stage 2: every TOUGH part goes to the front, and the TOUGH count drops to 0. */
  method FrontToughParts(table: PartCountMap) returns (front: seq<Kind>)
    requires Valid(table.counts)
    modifies table
    ensures front == Front(old(table.counts)).parts
    ensures table.counts == Front(old(table.counts)).left
  {
    front := Repeat(Tough, table.counts[Tough]);
    table.Set(Tough, 0);
  }

  /** Stage 3: the first MOVE block takes half of the MOVE parts, rounded up. */
  method FirstMoveParts(table: PartCountMap) returns (move1: seq<Kind>)
    requires Valid(table.counts)
    modifies table
    ensures move1 == FirstMoves(old(table.counts)).parts
    ensures table.counts == FirstMoves(old(table.counts)).left
  {
    var movePartsTotal := table.counts[Move];
    var moveParts1MoveCount := if movePartsTotal % 2 == 0 then movePartsTotal / 2 else (movePartsTotal + 1) / 2;
    HalfUpIsCeiling(movePartsTotal);
    move1 := Repeat(Move, moveParts1MoveCount);
    table.Set(Move, movePartsTotal - moveParts1MoveCount);
  }

  /** Stage 4: without RANGED_ATTACK the second MOVE block takes the remaining MOVE
      parts; with RANGED_ATTACK it is empty and the table is left alone. */
  method SecondMoveParts(table: PartCountMap, haveRangedAttack: bool) returns (move2: seq<Kind>)
    requires Valid(table.counts)
    modifies table
    ensures move2 == SecondMoves(old(table.counts), haveRangedAttack).parts
    ensures table.counts == SecondMoves(old(table.counts), haveRangedAttack).left
  {
    if haveRangedAttack {
      move2 := [];
    } else {
      var moveParts2MoveCount := table.counts[Move];
      move2 := Repeat(Move, moveParts2MoveCount);
      table.Set(Move, 0);
    }
  }

  /** Stage 5: sweep the layout again and again, taking one part of each kind that
      is still in stock (skipping MOVE unless there is RANGED_ATTACK), until a whole
      sweep takes nothing. */
  method CentreLayoutParts(table: PartCountMap, layout: seq<Kind>, haveRangedAttack: bool) returns (centre: seq<Kind>)
    requires Valid(table.counts)
    modifies table
    ensures centre == Centre(layout, haveRangedAttack, old(table.counts)).parts
    ensures table.counts == Centre(layout, haveRangedAttack, old(table.counts)).left
  {
    ghost var start := table.counts;
    centre := [];
    var stillLooping := true;
    while stillLooping
      invariant Valid(table.counts)
      invariant CentreLoop(layout, haveRangedAttack, table.counts, centre, stillLooping)
                == CentreLoop(layout, haveRangedAttack, start, [], true)
      decreases Total(table.counts) + (if stillLooping then 1 else 0)
    {
      ghost var sweepStart, centreBefore := table.counts, centre;
      ghost var sweep := ScanLayout(layout, haveRangedAttack, sweepStart, centreBefore, false);
      stillLooping := false;
      for j := 0 to |layout|
        invariant Valid(table.counts)
        invariant ScanLayout(layout[j..], haveRangedAttack, table.counts, centre, stillLooping) == sweep
      {
        assert layout[j..][1..] == layout[j + 1..];
        var part := layout[j];
        if !haveRangedAttack && part == Move {
          continue;
        }
        var partCount := table.counts[part];
        if partCount > 0 {
          centre := TakePart(table, part, centre);
          stillLooping := true;
        }
      }
      assert table.counts == sweep.left && centre == sweep.parts && stillLooping == sweep.emitted;
    }
  }

  /** One step of the leftover loop: kind MapOrder[n] adds its block, if any. */
  lemma GroupedStep(extra: seq<Kind>, n: nat, c: Counts)
    requires n < |MapOrder| && Valid(c)
    ensures var k := MapOrder[n];
            extra + GroupedFrom(n, c)
            == (if c[k] > 0 then extra + Repeat(k, c[k]) else extra) + GroupedFrom(n + 1, c)
  {
    var k := MapOrder[n];
    assert GroupedFrom(n, c) == Repeat(k, c[k]) + GroupedFrom(n + 1, c);
    if c[k] == 0 {
      assert Repeat(k, c[k]) == [];
    }
  }

  /** Stage 6: whatever is left goes out grouped by kind, in the order the map
      iterates its entries. The table is read, not changed. */
  method AdditionalParts(table: PartCountMap) returns (extra: seq<Kind>)
    requires Valid(table.counts)
    ensures extra == Grouped(table.counts)
  {
    ghost var c := table.counts;
    extra := [];
    for n := 0 to |MapOrder|
      invariant extra + GroupedFrom(n, c) == Grouped(c)
    {
      var kind := MapOrder[n];
      var count := table.counts[kind];
      GroupedStep(extra, n, c);
      if count > 0 {
        extra := extra + Repeat(kind, count);
      }
    }
  }

  /** The six blocks the stages produce, concatenated in output order, are the
      reference order for the parts and the layout, and a permutation of the parts. */
  lemma Assemble(parts: seq<Kind>, layout: seq<Kind>, front: seq<Kind>, move1: seq<Kind>,
                 centre: seq<Kind>, extra: seq<Kind>, move2: seq<Kind>, buried: seq<Kind>)
    requires var c := CountParts(parts);
             var bt := Bury(Unique(layout), c);
             var ft := Front(bt.left);
             var mt := FirstMoves(ft.left);
             var st := SecondMoves(mt.left, c[RangedAttack] > 0);
             var ct := Centre(layout, c[RangedAttack] > 0, st.left);
             && buried == bt.parts && front == ft.parts && move1 == mt.parts
             && move2 == st.parts && centre == ct.parts && extra == Grouped(ct.left)
    ensures [] + front + move1 + centre + extra + move2 + buried == SortedParts(parts, layout)
    ensures multiset([] + front + move1 + centre + extra + move2 + buried) == multiset(parts)
  {
    PushOntoEmpty(front);
  }

  /** The whole sort: the stages in source order, then the six blocks concatenated
      as front, first MOVE, centre, leftovers, second MOVE, buried. The result is
      the reference order and a permutation of the input. */
  method SortCreepParts(parts: seq<Kind>, layout: seq<Kind>) returns (result: seq<Kind>)
    ensures result == SortedParts(parts, layout)
    ensures multiset(result) == multiset(parts)
  {
    var table := new PartCountMap();
    CountInto(table, parts);
    var unique := UniqueKinds(layout);
    var haveRangedAttack := table.counts[RangedAttack] > 0;
    var buriedParts := BuryParts(table, unique);
    var frontToughParts := FrontToughParts(table);
    var moveParts1 := FirstMoveParts(table);
    var moveParts2 := SecondMoveParts(table, haveRangedAttack);
    var centerLayoutParts := CentreLayoutParts(table, layout, haveRangedAttack);
    var additionalParts := AdditionalParts(table);
    result := [];
    result := result + frontToughParts;
    result := result + moveParts1;
    result := result + centerLayoutParts;
    result := result + additionalParts;
    result := result + moveParts2;
    result := result + buriedParts;
    Assemble(parts, layout, frontToughParts, moveParts1, centerLayoutParts, additionalParts, moveParts2, buriedParts);
  }
}
