/** The order `sortCreepParts` gives a creep's body parts, as a pipeline of stages
    over a count table: each stage takes parts out of the table and emits them. */
module PartOrder {
  import opened CreepParts

  /** What a stage hands on: the count table after it, and the parts emitted so far. */
  datatype Taken = Taken(left: Counts, parts: seq<Kind>)

  /** Going from table c with output acc to r keeps every count non-negative and
      emits exactly what it takes out of the table, kind by kind. */
  predicate Keeps(c: Counts, acc: seq<Kind>, r: Taken)
    requires Valid(c)
  {
    && Valid(r.left)
    && forall k {:trigger multiset(r.parts)[k]} :: multiset(r.parts)[k] + r.left[k] == multiset(acc)[k] + c[k]
  }

  /** Two stages in a row keep what each of them keeps. */
  lemma KeepsTrans(c: Counts, acc: seq<Kind>, s: Taken, r: Taken)
    requires Valid(c) && Keeps(c, acc, s) && Valid(s.left) && Keeps(s.left, s.parts, r)
    ensures Keeps(c, acc, r)
  {
    forall k ensures multiset(r.parts)[k] + r.left[k] == multiset(acc)[k] + c[k] {
      assert multiset(s.parts)[k] + s.left[k] == multiset(acc)[k] + c[k];
      assert multiset(r.parts)[k] + r.left[k] == multiset(s.parts)[k] + s.left[k];
    }
  }

  // ---------------------------------------------------------------------------
  // Buried block

  /** Kinds the first burying pass skips. */
  predicate Unburied(k: Kind) {
    k == Move || k == RangedAttack || k == Tough
  }

  /** Reserves one k when the table holds any. */
  function TakeOne(k: Kind, c: Counts, acc: seq<Kind>): (r: Taken)
    requires Valid(c)
    ensures Keeps(c, acc, r)
    ensures Total(r.left) + |r.parts| == Total(c) + |acc|
    ensures r.left[k] == if c[k] > 0 then c[k] - 1 else 0
    ensures forall j {:trigger r.left[j]} :: j != k ==> r.left[j] == c[j]
  {
    if c[k] > 0 then
      TotalDecrement(c, k);
      Taken(c[k := c[k] - 1], acc + [k])
    else Taken(c, acc)
  }

  /** The first burying pass over the unique layout kinds. */
  function BuryPass(ks: seq<Kind>, c: Counts, acc: seq<Kind>): (r: Taken)
    requires Valid(c)
    ensures Keeps(c, acc, r)
    ensures r.left[Move] == c[Move] && r.left[RangedAttack] == c[RangedAttack] && r.left[Tough] == c[Tough]
    decreases |ks|
  {
    if ks == [] then Taken(c, acc)
    else if Unburied(ks[0]) then BuryPass(ks[1..], c, acc)
    else
      var t := TakeOne(ks[0], c, acc);
      BuryPass(ks[1..], t.left, t.parts)
  }

  /** The burying pass leaves the count of a kind it is not given alone. */
  lemma {:induction false} BuryPassFrame(ks: seq<Kind>, c: Counts, acc: seq<Kind>, k: Kind)
    requires Valid(c) && k !in ks
    ensures BuryPass(ks, c, acc).left[k] == c[k]
    decreases |ks|
  {
    if ks != [] {
      assert k != ks[0] && k !in ks[1..];
      if Unburied(ks[0]) {
        BuryPassFrame(ks[1..], c, acc, k);
      } else {
        var t := TakeOne(ks[0], c, acc);
        BuryPassFrame(ks[1..], t.left, t.parts, k);
      }
    }
  }

  /** The whole burying stage: the layout pass, then one MOVE, then one RANGED_ATTACK. */
  function Bury(unique: seq<Kind>, c: Counts): (r: Taken)
    requires Valid(c)
    ensures Keeps(c, [], r)
    ensures r.left[Tough] == c[Tough]
    ensures r.left[Move] == if c[Move] > 0 then c[Move] - 1 else 0
    ensures r.left[RangedAttack] == if c[RangedAttack] > 0 then c[RangedAttack] - 1 else 0
  {
    var t := BuryPass(unique, c, []);
    var m := TakeOne(Move, t.left, t.parts);
    var r := TakeOne(RangedAttack, m.left, m.parts);
    KeepsTrans(c, [], t, m);
    KeepsTrans(c, [], m, r);
    r
  }

  /** Declarative description of the layout part of the buried block: each kind of ks,
      in order, that is neither MOVE, RANGED_ATTACK nor TOUGH and that c holds. */
  function LayoutBuried(ks: seq<Kind>, c: Counts): (b: seq<Kind>)
    requires Valid(c)
    ensures forall k {:trigger k in b} {:trigger k in ks} :: k in b <==> k in ks && !Unburied(k) && c[k] > 0
    ensures Distinct(ks) ==> Distinct(b)
    decreases |ks|
  {
    if ks == [] then []
    else
      var rest := LayoutBuried(ks[1..], c);
      assert forall k :: k in ks <==> k == ks[0] || k in ks[1..];
      if !Unburied(ks[0]) && c[ks[0]] > 0 then
        assert Distinct(ks) ==> ks[0] !in ks[1..];
        [ks[0]] + rest
      else rest
  }

  /** LayoutBuried reads the table only at the kinds it is given. */
  lemma {:induction false} LayoutBuriedFrame(ks: seq<Kind>, c: Counts, d: Counts)
    requires Valid(c) && Valid(d)
    requires forall k :: k in ks ==> c[k] == d[k]
    ensures LayoutBuried(ks, c) == LayoutBuried(ks, d)
    decreases |ks|
  {
    if ks != [] {
      LayoutBuriedFrame(ks[1..], c, d);
    }
  }

  /** The tail of a list without repeats has none either, and does not hold the head. */
  lemma DistinctTail(ks: seq<Kind>)
    requires Distinct(ks) && ks != []
    ensures Distinct(ks[1..]) && ks[0] !in ks[1..]
  {
  }

  /** Pushing a block onto the empty list leaves just that block. */
  lemma PushOntoEmpty(s: seq<Kind>)
    ensures [] + s == s
  {
  }

  /** Concatenation is associative. */
  lemma AppendAssociative(a: seq<Kind>, b: seq<Kind>, d: seq<Kind>)
    ensures (a + b) + d == a + (b + d)
  {
  }

  /** Over distinct kinds, the burying pass emits exactly LayoutBuried after what it got. */
  lemma {:induction false} BuryPassFilters(ks: seq<Kind>, c: Counts, acc: seq<Kind>)
    requires Valid(c) && Distinct(ks)
    ensures BuryPass(ks, c, acc).parts == acc + LayoutBuried(ks, c)
    decreases |ks|
  {
    if ks != [] {
      DistinctTail(ks);
      if Unburied(ks[0]) {
        BuryPassFilters(ks[1..], c, acc);
      } else {
        var t := TakeOne(ks[0], c, acc);
        BuryPassFilters(ks[1..], t.left, t.parts);
        LayoutBuriedFrame(ks[1..], t.left, c);
        if c[ks[0]] > 0 {
          AppendAssociative(acc, [ks[0]], LayoutBuried(ks[1..], c));
        }
      }
    }
  }

  /** The buried block as the layout and the input counts determine it: one of each
      layout kind other than MOVE, RANGED_ATTACK and TOUGH that the input holds, in
      first-occurrence order, then one MOVE if any, then one RANGED_ATTACK if any. */
  function BuriedBlock(layout: seq<Kind>, c: Counts): (b: seq<Kind>)
    requires Valid(c)
  {
    var u := Unique(layout);
    LayoutBuried(u, c)
      + (if c[Move] > 0 then [Move] else [])
      + (if c[RangedAttack] > 0 then [RangedAttack] else [])
  }

  /** The burying stage emits BuriedBlock. */
  lemma BuryShape(layout: seq<Kind>, c: Counts)
    requires Valid(c)
    ensures Bury(Unique(layout), c).parts == BuriedBlock(layout, c)
  {
    var u := Unique(layout);
    var t := BuryPass(u, c, []);
    var m := TakeOne(Move, t.left, t.parts);
    var r := TakeOne(RangedAttack, m.left, m.parts);
    assert t.parts == LayoutBuried(u, c) by { BuryPassFilters(u, c, []); }
    assert m.parts == t.parts + (if c[Move] > 0 then [Move] else []);
    assert r.parts == m.parts + (if c[RangedAttack] > 0 then [RangedAttack] else []);
    assert Bury(u, c).parts == r.parts;
  }

  // ---------------------------------------------------------------------------
  // Front TOUGH block and the two MOVE blocks

  /** LayoutBuried keeps the order of ks: any two of its entries come from two
      positions of ks in the same order. */
  lemma {:induction false} LayoutBuriedOrder(ks: seq<Kind>, c: Counts, i: nat, j: nat)
    requires Valid(c) && i < j < |LayoutBuried(ks, c)|
    ensures exists p, q :: 0 <= p < q < |ks| && ks[p] == LayoutBuried(ks, c)[i] && ks[q] == LayoutBuried(ks, c)[j]
  {
    var b := LayoutBuried(ks, c);
    var rest := LayoutBuried(ks[1..], c);
    if !Unburied(ks[0]) && c[ks[0]] > 0 {
      assert b == [ks[0]] + rest;
      if i == 0 {
        assert b[j] in ks[1..];
        var q :| 0 <= q < |ks[1..]| && ks[1..][q] == b[j];
        assert ks[0] == b[0] && ks[q + 1] == b[j];
      } else {
        LayoutBuriedOrder(ks[1..], c, i - 1, j - 1);
        var p, q :| 0 <= p < q < |ks[1..]| && ks[1..][p] == rest[i - 1] && ks[1..][q] == rest[j - 1];
        assert ks[p + 1] == b[i] && ks[q + 1] == b[j];
      }
    } else {
      assert b == rest;
      LayoutBuriedOrder(ks[1..], c, i, j);
      var p, q :| 0 <= p < q < |ks[1..]| && ks[1..][p] == rest[i] && ks[1..][q] == rest[j];
      assert ks[p + 1] == b[i] && ks[q + 1] == b[j];
    }
  }

  /** The layout kinds are buried in order of first occurrence in the layout: when
      one comes before another in the buried block, it occurs in the layout before
      any occurrence of the other. */
  lemma BuriedInLayoutOrder(layout: seq<Kind>, c: Counts, i: nat, j: nat, p: nat)
    requires Valid(c) && i < j < |LayoutBuried(Unique(layout), c)|
    requires p < |layout| && layout[p] == LayoutBuried(Unique(layout), c)[j]
    ensures LayoutBuried(Unique(layout), c)[i] in layout[..p]
  {
    var u := Unique(layout);
    LayoutBuriedOrder(u, c, i, j);
    var i', j' :| 0 <= i' < j' < |u| && u[i'] == LayoutBuried(u, c)[i] && u[j'] == LayoutBuried(u, c)[j];
    UniqueFirstOccurrence(layout, i', j', p);
  }

  /** All TOUGH parts. */
  function Front(c: Counts): (r: Taken)
    requires Valid(c)
    ensures Keeps(c, [], r)
    ensures r.left[Tough] == 0
    ensures forall k {:trigger r.left[k]} :: k != Tough ==> r.left[k] == c[k]
  {
    Taken(c[Tough := 0], Repeat(Tough, c[Tough]))
  }

  /** The length of the first MOVE block for m MOVE parts: m / 2 rounded up. */
  function HalfUp(m: nat): (h: nat)
    ensures m <= 2 * h <= m + 1
  {
    if m <= 1 then m else HalfUp(m - 2) + 1
  }

  /** HalfUp is m / 2 for even m and (m + 1) / 2 for odd m: division by two
      rounded up. */
  lemma HalfUpIsCeiling(m: nat)
    ensures HalfUp(m) == if m % 2 == 0 then m / 2 else (m + 1) / 2
  {
  }

  /** The first MOVE block: half of the MOVE parts, rounded up. */
  function FirstMoves(c: Counts): (r: Taken)
    requires Valid(c)
    ensures Keeps(c, [], r)
    ensures r.parts == Repeat(Move, HalfUp(c[Move]))
  {
    var m := c[Move];
    var n := HalfUp(m);
    Taken(c[Move := m - n], Repeat(Move, n))
  }

  /** The second MOVE block: every MOVE left when there is no RANGED_ATTACK, else none. */
  function SecondMoves(c: Counts, haveRangedAttack: bool): (r: Taken)
    requires Valid(c)
    ensures Keeps(c, [], r)
    ensures !haveRangedAttack ==> r.parts == Repeat(Move, c[Move]) && r.left[Move] == 0
    ensures haveRangedAttack ==> r.parts == [] && r.left == c
  {
    if haveRangedAttack then Taken(c, [])
    else Taken(c[Move := 0], Repeat(Move, c[Move]))
  }

  // ---------------------------------------------------------------------------
  // Centre block

  /** The state of the centre loop after part of a scan. */
  datatype Scan = Scan(left: Counts, parts: seq<Kind>, emitted: bool)

  /** Whether a scan of the layout looks at kind k: MOVE only when there is a RANGED_ATTACK. */
  predicate Considered(k: Kind, haveRangedAttack: bool) {
    haveRangedAttack || k != Move
  }

  /** One scan of the layout: emits one of each considered layout entry still in stock. */
  function ScanLayout(ks: seq<Kind>, haveRangedAttack: bool, c: Counts, acc: seq<Kind>, emitted: bool): (r: Scan)
    requires Valid(c)
    ensures Keeps(c, acc, Taken(r.left, r.parts))
    ensures |r.parts| >= |acc|
    ensures Total(r.left) + |r.parts| == Total(c) + |acc|
    ensures r.emitted == (emitted || |r.parts| > |acc|)
    ensures |r.parts| == |acc| ==> r.left == c && forall k {:trigger k in ks} :: k in ks && Considered(k, haveRangedAttack) ==> c[k] == 0
    ensures forall k {:trigger r.left[k]} :: !(k in ks && Considered(k, haveRangedAttack)) ==> r.left[k] == c[k]
    ensures !haveRangedAttack ==> r.left[Move] == c[Move]
    decreases |ks|
  {
    if ks == [] then Scan(c, acc, emitted)
    else
      assert forall j :: j in ks <==> j == ks[0] || j in ks[1..];
      var k := ks[0];
      if !haveRangedAttack && k == Move then ScanLayout(ks[1..], haveRangedAttack, c, acc, emitted)
      else if c[k] > 0 then
        var t := TakeOne(k, c, acc);
        var r := ScanLayout(ks[1..], haveRangedAttack, t.left, t.parts, true);
        KeepsTrans(c, acc, t, Taken(r.left, r.parts));
        r
      else ScanLayout(ks[1..], haveRangedAttack, c, acc, emitted)
  }

  /** Scans repeated while the previous one emitted something. */
  function CentreLoop(layout: seq<Kind>, haveRangedAttack: bool, c: Counts, acc: seq<Kind>, again: bool): (r: Taken)
    requires Valid(c)
    ensures Keeps(c, acc, r)
    ensures again ==> forall k {:trigger k in layout} :: k in layout && Considered(k, haveRangedAttack) ==> r.left[k] == 0
    ensures forall k {:trigger r.left[k]} :: !(k in layout && Considered(k, haveRangedAttack)) ==> r.left[k] == c[k]
    ensures !haveRangedAttack ==> r.left[Move] == c[Move]
    decreases Total(c) + (if again then 1 else 0)
  {
    if !again then Taken(c, acc)
    else
      var s := ScanLayout(layout, haveRangedAttack, c, acc, false);
      CentreLoop(layout, haveRangedAttack, s.left, s.parts, s.emitted)
  }

  /** The centre block: round-robin over the layout until no considered layout kind is left. */
  function Centre(layout: seq<Kind>, haveRangedAttack: bool, c: Counts): (r: Taken)
    requires Valid(c)
    ensures Keeps(c, [], r)
    ensures forall k {:trigger k in layout} :: k in layout && Considered(k, haveRangedAttack) ==> r.left[k] == 0
    ensures forall k {:trigger r.left[k]} :: !(k in layout && Considered(k, haveRangedAttack)) ==> r.left[k] == c[k]
    ensures forall k {:trigger k in r.parts} :: k in r.parts ==> k in layout && Considered(k, haveRangedAttack)
    ensures !haveRangedAttack ==> r.left[Move] == c[Move]
  {
    var r := CentreLoop(layout, haveRangedAttack, c, [], true);
    forall k | k in r.parts ensures k in layout && Considered(k, haveRangedAttack) {
      assert multiset(r.parts)[k] + r.left[k] == c[k];
    }
    r
  }

  // ---------------------------------------------------------------------------
  // Leftover block

  /** The parts a table holds, grouped by kind, for the kinds from position n of MapOrder on. */
  function GroupedFrom(n: nat, c: Counts): (r: seq<Kind>)
    requires n <= |MapOrder| && Valid(c)
    ensures forall k :: multiset(r)[k] == if Rank(k) >= n then c[k] else 0
    decreases |MapOrder| - n
  {
    if n == |MapOrder| then []
    else
      var k := MapOrder[n];
      var block := Repeat(k, c[k]);
      var rest := GroupedFrom(n + 1, c);
      forall k' ensures multiset(block + rest)[k'] == if Rank(k') >= n then c[k'] else 0 {
        assert multiset(block + rest)[k'] == multiset(block)[k'] + multiset(rest)[k'];
        RankOfMapOrder(n);
        assert Rank(k') == n <==> k' == k;
      }
      block + rest
  }

  /** Entry i of GroupedFrom(n, c): inside the block of MapOrder[n], or further on. */
  lemma GroupedFromAt(n: nat, c: Counts, i: nat)
    requires n <= |MapOrder| && Valid(c) && i < |GroupedFrom(n, c)|
    ensures n < |MapOrder|
    ensures var k := MapOrder[n];
            if i < c[k] then GroupedFrom(n, c)[i] == k
            else i - c[k] < |GroupedFrom(n + 1, c)| && GroupedFrom(n, c)[i] == GroupedFrom(n + 1, c)[i - c[k]]
  {
    var k := MapOrder[n];
    assert GroupedFrom(n, c) == Repeat(k, c[k]) + GroupedFrom(n + 1, c);
  }

  /** GroupedFrom lists kinds by increasing position in MapOrder, none before n. */
  lemma {:induction false} GroupedFromSorted(n: nat, c: Counts, i: nat, j: nat)
    requires n <= |MapOrder| && Valid(c)
    requires i <= j < |GroupedFrom(n, c)|
    ensures n <= Rank(GroupedFrom(n, c)[i]) <= Rank(GroupedFrom(n, c)[j])
    decreases |MapOrder| - n
  {
    GroupedFromAt(n, c, i);
    GroupedFromAt(n, c, j);
    var k := MapOrder[n];
    RankOfMapOrder(n);
    if j < c[k] {
    } else if i < c[k] {
      GroupedFromSorted(n + 1, c, j - c[k], j - c[k]);
    } else {
      GroupedFromSorted(n + 1, c, i - c[k], j - c[k]);
    }
  }

  /** The leftover block: every part the table holds, grouped by kind in MapOrder. */
  function Grouped(c: Counts): (r: seq<Kind>)
    requires Valid(c)
    ensures forall k :: multiset(r)[k] == c[k]
  {
    GroupedFrom(0, c)
  }

  /** The leftover block lists kinds in the order the count map iterates them. */
  lemma GroupedInMapOrder(c: Counts)
    requires Valid(c)
    ensures forall i, j :: 0 <= i <= j < |Grouped(c)| ==> Rank(Grouped(c)[i]) <= Rank(Grouped(c)[j])
  {
    forall i, j | 0 <= i <= j < |Grouped(c)| ensures Rank(Grouped(c)[i]) <= Rank(Grouped(c)[j]) {
      GroupedFromSorted(0, c, i, j);
    }
  }

  // ---------------------------------------------------------------------------
  // The pipeline

  /** The six blocks of the output, in the order they are concatenated. */
  datatype Blocks = Blocks(front: seq<Kind>, move1: seq<Kind>, centre: seq<Kind>,
                           extra: seq<Kind>, move2: seq<Kind>, buried: seq<Kind>)

  /** The output: the six blocks one after another. It holds exactly the parts of the
      blocks; the front block opens it, the first MOVE block follows it, and the
      buried block closes it. */
  function Flatten(b: Blocks): (r: seq<Kind>)
    ensures multiset(r) == multiset(b.front) + multiset(b.move1) + multiset(b.centre)
                           + multiset(b.extra) + multiset(b.move2) + multiset(b.buried)
    ensures |b.front| + |b.move1| <= |r| - |b.buried|
    ensures r[..|b.front|] == b.front
    ensures r[|b.front|..|b.front| + |b.move1|] == b.move1
    ensures r[|r| - |b.buried|..] == b.buried
  {
    var r := b.front + b.move1 + b.centre + b.extra + b.move2 + b.buried;
    assert r == b.front + (b.move1 + b.centre + b.extra + b.move2) + b.buried;
    assert r == b.front + b.move1 + (b.centre + b.extra + b.move2 + b.buried);
    r
  }

  /** The stages after the first MOVE block: the second MOVE block, the centre block
      and the leftovers, put together with the blocks already cut. The three new
      blocks hold exactly the parts left after the first MOVE block. */
  function Finish(layout: seq<Kind>, haveRangedAttack: bool, front: seq<Kind>, move1: Taken, buried: seq<Kind>): (b: Blocks)
    requires Valid(move1.left)
    ensures forall k :: multiset(b.centre)[k] + multiset(b.extra)[k] + multiset(b.move2)[k] == move1.left[k]
  {
    var move2 := SecondMoves(move1.left, haveRangedAttack);
    var centre := Centre(layout, haveRangedAttack, move2.left);
    var extra := Grouped(centre.left);
    assert forall k :: multiset(centre.parts)[k] + multiset(extra)[k] + multiset(move2.parts)[k] == move1.left[k] by {
      forall k ensures multiset(centre.parts)[k] + multiset(extra)[k] + multiset(move2.parts)[k] == move1.left[k] {
        assert multiset(move2.parts)[k] + move2.left[k] == move1.left[k];
        assert multiset(centre.parts)[k] + centre.left[k] == move2.left[k];
      }
    }
    Blocks(front, move1.parts, centre.parts, extra, move2.parts, buried)
  }

  /** The six blocks cut from a count table. Together they hold exactly the parts of
      the table: every stage emits exactly what it takes out of the table, and the
      leftover stage empties it. */
  function Cut(c: Counts, layout: seq<Kind>): (b: Blocks)
    requires Valid(c)
    ensures forall k :: multiset(Flatten(b))[k] == c[k]
  {
    var haveRangedAttack := c[RangedAttack] > 0;
    var buried := Bury(Unique(layout), c);
    var front := Front(buried.left);
    var move1 := FirstMoves(front.left);
    var b := Finish(layout, haveRangedAttack, front.parts, move1, buried.parts);
    HeadConserves(c, layout);
    SumBlocks(b, c, move1.left);
    b
  }

  /** The three blocks cut before Finish hold exactly the parts they take out of the table. */
  lemma HeadConserves(c: Counts, layout: seq<Kind>)
    requires Valid(c)
    ensures var buried := Bury(Unique(layout), c);
            var front := Front(buried.left);
            var move1 := FirstMoves(front.left);
            forall k :: multiset(buried.parts)[k] + multiset(front.parts)[k] + multiset(move1.parts)[k] + move1.left[k] == c[k]
  {
    var buried := Bury(Unique(layout), c);
    var front := Front(buried.left);
    var move1 := FirstMoves(front.left);
    forall k ensures multiset(buried.parts)[k] + multiset(front.parts)[k] + multiset(move1.parts)[k] + move1.left[k] == c[k] {
      assert multiset(buried.parts)[k] + buried.left[k] == c[k];
      assert multiset(front.parts)[k] + front.left[k] == buried.left[k];
    }
  }

  /** Adds up the per-kind counts of the blocks before and after the first MOVE block. */
  lemma SumBlocks(b: Blocks, c: Counts, mid: Counts)
    requires Valid(c) && Valid(mid)
    requires forall k :: multiset(b.buried)[k] + multiset(b.front)[k] + multiset(b.move1)[k] + mid[k] == c[k]
    requires forall k :: multiset(b.centre)[k] + multiset(b.extra)[k] + multiset(b.move2)[k] == mid[k]
    ensures forall k :: multiset(Flatten(b))[k] == c[k]
  {
    forall k ensures multiset(Flatten(b))[k] == c[k] {
      assert multiset(b.buried)[k] + multiset(b.front)[k] + multiset(b.move1)[k] + mid[k] == c[k];
      assert multiset(b.centre)[k] + multiset(b.extra)[k] + multiset(b.move2)[k] == mid[k];
    }
  }

  /** The ordered body that `sortCreepParts` returns for parts and a layout. Sorting
      only reorders: the output holds exactly the input's parts. */
  function SortedParts(parts: seq<Kind>, layout: seq<Kind>): (r: seq<Kind>)
    ensures multiset(r) == multiset(parts)
    ensures |r| == |parts|
  {
    var r := Flatten(Cut(CountParts(parts), layout));
    SameCountsSameParts(r, parts);
    r
  }

  /** Two lists with the same number of each kind are permutations of each other. */
  lemma SameCountsSameParts(r: seq<Kind>, parts: seq<Kind>)
    requires forall k :: multiset(r)[k] == multiset(parts)[k]
    ensures multiset(r) == multiset(parts) && |r| == |parts|
  {
    assert multiset(r) == multiset(parts);
    assert |r| == |multiset(r)|;
  }

  // ---------------------------------------------------------------------------
  // Properties of the blocks

  /** A stage cannot emit a kind the table no longer holds. */
  lemma NoneLeftNoneTaken(c: Counts, r: Taken, k: Kind)
    requires Valid(c) && Keeps(c, [], r) && c[k] == 0
    ensures multiset(r.parts)[k] == 0 && r.left[k] == 0 && k !in r.parts
  {
    assert multiset(r.parts)[k] + r.left[k] == c[k];
  }

  /** The number of MOVE parts left once one has been buried. */
  function MovesAfterBurying(c: Counts): nat
    requires Valid(c)
  {
    if c[Move] > 0 then c[Move] - 1 else 0
  }

  /** The front block holds every TOUGH part. */
  lemma FrontBlock(c: Counts, layout: seq<Kind>)
    requires Valid(c)
    ensures Cut(c, layout).front == Repeat(Tough, c[Tough])
  {
    assert Bury(Unique(layout), c).left[Tough] == c[Tough];
  }

  /** No block other than the front holds a TOUGH part. */
  lemma ToughOnlyInFront(c: Counts, layout: seq<Kind>)
    requires Valid(c)
    ensures var b := Cut(c, layout);
            Tough !in b.move1 && Tough !in b.centre && Tough !in b.extra && Tough !in b.move2 && Tough !in b.buried
  {
    var haveRangedAttack := c[RangedAttack] > 0;
    var buried := Bury(Unique(layout), c);
    var front := Front(buried.left);
    var move1 := FirstMoves(front.left);
    var move2 := SecondMoves(move1.left, haveRangedAttack);
    var centre := Centre(layout, haveRangedAttack, move2.left);
    assert multiset(buried.parts)[Tough] + buried.left[Tough] == c[Tough];
    NoneLeftNoneTaken(front.left, move1, Tough);
    NoneLeftNoneTaken(move1.left, move2, Tough);
    NoneLeftNoneTaken(move2.left, centre, Tough);
    assert multiset(Grouped(centre.left))[Tough] == 0;
  }

  /** The first MOVE block, and what it leaves for the second. */
  lemma HeadMoves(c: Counts, layout: seq<Kind>)
    requires Valid(c)
    ensures FirstMoves(Front(Bury(Unique(layout), c).left).left).left[Move]
            == MovesAfterBurying(c) - HalfUp(MovesAfterBurying(c))
  {
    var buried := Bury(Unique(layout), c);
    var front := Front(buried.left);
    var move1 := FirstMoves(front.left);
    assert front.left[Move] == buried.left[Move];
    assert multiset(move1.parts)[Move] + move1.left[Move] == front.left[Move];
  }

  /** The second MOVE block, and the absence of MOVE from the centre and the
      leftovers when there is no RANGED_ATTACK. */
  lemma FinishMoves(layout: seq<Kind>, haveRangedAttack: bool, front: seq<Kind>, move1: Taken, buried: seq<Kind>, n: int)
    requires Valid(move1.left) && move1.left[Move] == n
    ensures var b := Finish(layout, haveRangedAttack, front, move1, buried);
            && (!haveRangedAttack ==> b.move2 == Repeat(Move, n) && Move !in b.centre && Move !in b.extra)
            && (haveRangedAttack ==> b.move2 == [])
  {
    if !haveRangedAttack {
      var move2 := SecondMoves(move1.left, haveRangedAttack);
      var centre := Centre(layout, haveRangedAttack, move2.left);
      NoneLeftNoneTaken(move2.left, centre, Move);
      assert multiset(Grouped(centre.left))[Move] == 0;
    }
  }

  /** The first MOVE block holds half of the MOVE parts left after burying,
      rounded up. */
  lemma FirstMoveBlockOfCut(c: Counts, layout: seq<Kind>)
    requires Valid(c)
    ensures Cut(c, layout).move1 == Repeat(Move, HalfUp(MovesAfterBurying(c)))
  {
    var buried := Bury(Unique(layout), c);
    assert Front(buried.left).left[Move] == MovesAfterBurying(c);
  }

  /** The second MOVE block is cut from the table the first MOVE block leaves. */
  lemma CutSecondMoves(c: Counts, layout: seq<Kind>)
    requires Valid(c)
    ensures Cut(c, layout).move2
            == SecondMoves(FirstMoves(Front(Bury(Unique(layout), c).left).left).left, c[RangedAttack] > 0).parts
  {
  }

  /** Without RANGED_ATTACK the second MOVE stage takes every MOVE in the table. */
  lemma SecondMovesTakeAll(c: Counts)
    requires Valid(c)
    ensures SecondMoves(c, false).parts == Repeat(Move, c[Move])
  {
  }

  /** Without RANGED_ATTACK the second MOVE block holds the MOVE parts the first
      did not take. */
  lemma SecondMoveBlock(c: Counts, layout: seq<Kind>)
    requires Valid(c) && c[RangedAttack] == 0
    ensures Cut(c, layout).move2 == Repeat(Move, MovesAfterBurying(c) - HalfUp(MovesAfterBurying(c)))
  {
    CutSecondMoves(c, layout);
    HeadMoves(c, layout);
    SecondMovesTakeAll(FirstMoves(Front(Bury(Unique(layout), c).left).left).left);
  }

  /** Without RANGED_ATTACK neither the centre nor the leftovers hold any MOVE. */
  lemma NoMoveInCentre(c: Counts, layout: seq<Kind>)
    requires Valid(c) && c[RangedAttack] == 0
    ensures Move !in Cut(c, layout).centre && Move !in Cut(c, layout).extra
  {
    var buried := Bury(Unique(layout), c);
    var front := Front(buried.left);
    var move1 := FirstMoves(front.left);
    FinishMoves(layout, c[RangedAttack] > 0, front.parts, move1, buried.parts, move1.left[Move]);
  }

  /** With RANGED_ATTACK the second MOVE block is empty. */
  lemma NoSecondMoveBlock(c: Counts, layout: seq<Kind>)
    requires Valid(c) && c[RangedAttack] > 0
    ensures Cut(c, layout).move2 == []
  {
    var buried := Bury(Unique(layout), c);
    var front := Front(buried.left);
    var move1 := FirstMoves(front.left);
    FinishMoves(layout, c[RangedAttack] > 0, front.parts, move1, buried.parts, move1.left[Move]);
  }

  /** The buried block is the one BuriedBlock describes. */
  lemma BuriedBlockShape(c: Counts, layout: seq<Kind>)
    requires Valid(c)
    ensures Cut(c, layout).buried == BuriedBlock(layout, c)
  {
    BuryShape(layout, c);
  }

  /** After the centre loop no layout kind is left, so the leftover block holds
      only kinds that do not occur in the layout. */
  lemma LeftoversOutsideLayout(c: Counts, layout: seq<Kind>)
    requires Valid(c)
    ensures forall k :: k in Cut(c, layout).extra ==> k !in layout
  {
    var buried := Bury(Unique(layout), c);
    var front := Front(buried.left);
    var move1 := FirstMoves(front.left);
    FinishLeftovers(layout, c[RangedAttack] > 0, front.parts, move1, buried.parts);
    assert Cut(c, layout) == Finish(layout, c[RangedAttack] > 0, front.parts, move1, buried.parts);
  }

  /** LeftoversOutsideLayout for the stages after the first MOVE block. */
  lemma FinishLeftovers(layout: seq<Kind>, haveRangedAttack: bool, front: seq<Kind>, move1: Taken, buried: seq<Kind>)
    requires Valid(move1.left)
    ensures forall k :: k in Finish(layout, haveRangedAttack, front, move1, buried).extra ==> k !in layout
  {
    var move2 := SecondMoves(move1.left, haveRangedAttack);
    var centre := Centre(layout, haveRangedAttack, move2.left);
    var extra := Grouped(centre.left);
    forall k | k in layout ensures k !in extra {
      if Considered(k, haveRangedAttack) {
        assert centre.left[k] == 0;
      } else {
        assert centre.left[Move] == move2.left[Move] == 0;
      }
      assert multiset(extra)[k] == 0;
    }
  }

  /** After the first MOVE block, a kind outside the layout never reaches the centre,
      and when it is not MOVE all its parts go to the leftovers. */
  lemma FinishOutsideLayout(layout: seq<Kind>, haveRangedAttack: bool, move1: Taken, k: Kind)
    requires Valid(move1.left) && k !in layout
    ensures var move2 := SecondMoves(move1.left, haveRangedAttack);
            var centre := Centre(layout, haveRangedAttack, move2.left);
            && k !in centre.parts
            && (k != Move ==> multiset(Grouped(centre.left))[k] == move1.left[k])
  {
    var move2 := SecondMoves(move1.left, haveRangedAttack);
    var centre := Centre(layout, haveRangedAttack, move2.left);
    assert k !in centre.parts;
    if k != Move {
      assert multiset(move2.parts)[k] == 0;
      assert move2.left[k] == move1.left[k];
      assert centre.left[k] == move2.left[k];
      assert multiset(Grouped(centre.left))[k] == centre.left[k];
    }
  }

  /** The burying, front and first MOVE stages take no part of a kind outside the
      layout other than MOVE, RANGED_ATTACK and TOUGH. */
  lemma HeadLeavesOthers(c: Counts, layout: seq<Kind>, k: Kind)
    requires Valid(c) && k !in layout && !Unburied(k)
    ensures FirstMoves(Front(Bury(Unique(layout), c).left).left).left[k] == c[k]
  {
    var u := Unique(layout);
    var t := BuryPass(u, c, []);
    var m := TakeOne(Move, t.left, t.parts);
    BuryPassFrame(u, c, [], k);
    assert Bury(u, c).left[k] == c[k] by {
      assert Bury(u, c) == TakeOne(RangedAttack, m.left, m.parts);
    }
    var move1 := FirstMoves(Front(Bury(u, c).left).left);
    assert multiset(move1.parts)[k] == 0;
  }

  /** The centre and leftover blocks are cut from the table the second MOVE block leaves. */
  lemma CutCentre(c: Counts, layout: seq<Kind>)
    requires Valid(c)
    ensures var move1 := FirstMoves(Front(Bury(Unique(layout), c).left).left);
            var centre := Centre(layout, c[RangedAttack] > 0, SecondMoves(move1.left, c[RangedAttack] > 0).left);
            Cut(c, layout).centre == centre.parts && Cut(c, layout).extra == Grouped(centre.left)
  {
  }

  /** A kind that does not occur in the layout never reaches the centre block, and
      every part of such a kind other than MOVE, RANGED_ATTACK and TOUGH ends up in
      the leftover block. */
  lemma NonLayoutKindsInLeftovers(c: Counts, layout: seq<Kind>, k: Kind)
    requires Valid(c) && k !in layout
    ensures k !in Cut(c, layout).centre
    ensures !Unburied(k) ==> multiset(Cut(c, layout).extra)[k] == c[k]
  {
    OutsideKindNotInCentre(c, layout, k);
    if !Unburied(k) {
      OutsideKindToLeftovers(c, layout, k);
    }
  }

  /** A kind that does not occur in the layout never reaches the centre block. */
  lemma OutsideKindNotInCentre(c: Counts, layout: seq<Kind>, k: Kind)
    requires Valid(c) && k !in layout
    ensures k !in Cut(c, layout).centre
  {
    var move1 := FirstMoves(Front(Bury(Unique(layout), c).left).left);
    FinishOutsideLayout(layout, c[RangedAttack] > 0, move1, k);
    CutCentre(c, layout);
  }

  /** Every part of a kind outside the layout, other than MOVE, RANGED_ATTACK and TOUGH,
      ends up in the leftover block. */
  lemma OutsideKindToLeftovers(c: Counts, layout: seq<Kind>, k: Kind)
    requires Valid(c) && k !in layout && !Unburied(k)
    ensures multiset(Cut(c, layout).extra)[k] == c[k]
  {
    var move1 := FirstMoves(Front(Bury(Unique(layout), c).left).left);
    FinishOutsideLayout(layout, c[RangedAttack] > 0, move1, k);
    CutCentre(c, layout);
    HeadLeavesOthers(c, layout, k);
  }

  // ---------------------------------------------------------------------------
  // Properties of the sorted output

  /** A list that starts with all n parts of kind k holds no k after them. */
  lemma NoneAfterAll(r: seq<Kind>, n: nat, k: Kind)
    requires n <= |r| && r[..n] == Repeat(k, n) && multiset(r)[k] == n
    ensures k !in r[n..]
  {
    assert r == r[..n] + r[n..];
    assert multiset(r[n..])[k] == 0;
  }

  /** All TOUGH parts come first, and no TOUGH part comes after them. */
  lemma ToughPrefix(parts: seq<Kind>, layout: seq<Kind>)
    ensures var r := SortedParts(parts, layout);
            var n := multiset(parts)[Tough];
            n <= |r| && r[..n] == Repeat(Tough, n) && Tough !in r[n..]
  {
    var c := CountParts(parts);
    var b := Cut(c, layout);
    var r := Flatten(b);
    var n := multiset(parts)[Tough];
    FrontBlock(c, layout);
    NoneAfterAll(r, n, Tough);
  }

  /** The first MOVE block follows the TOUGH parts and holds half of the MOVE parts
      left after burying, rounded up. */
  lemma FirstMoveBlock(parts: seq<Kind>, layout: seq<Kind>)
    ensures var r := SortedParts(parts, layout);
            var n := multiset(parts)[Tough];
            var h := HalfUp(MovesAfterBurying(CountParts(parts)));
            n + h <= |r| && forall i :: n <= i < n + h ==> r[i] == Move
  {
    var c := CountParts(parts);
    FrontBlock(c, layout);
    FirstMoveBlockOfCut(c, layout);
    SecondRun(Cut(c, layout), Move, HalfUp(MovesAfterBurying(c)));
  }

  /** In a flattened block list whose second block is a run of one kind, that run
      sits right after the first block. */
  lemma SecondRun(b: Blocks, k: Kind, h: nat)
    requires b.move1 == Repeat(k, h)
    ensures |b.front| + h <= |Flatten(b)|
    ensures forall i :: |b.front| <= i < |b.front| + h ==> Flatten(b)[i] == k
  {
    forall i | |b.front| <= i < |b.front| + h ensures Flatten(b)[i] == k {
      assert Flatten(b)[i] == b.move1[i - |b.front|];
    }
  }

  /** The output ends with the buried block. */
  lemma BuriedSuffix(parts: seq<Kind>, layout: seq<Kind>)
    ensures var r := SortedParts(parts, layout);
            var bb := BuriedBlock(layout, CountParts(parts));
            |bb| <= |r| && r[|r| - |bb|..] == bb
  {
    var c := CountParts(parts);
    BuriedBlockShape(c, layout);
  }

  /** The output depends only on how many parts of each kind there are. */
  lemma OrderIndependent(p: seq<Kind>, q: seq<Kind>, layout: seq<Kind>)
    requires multiset(p) == multiset(q)
    ensures SortedParts(p, layout) == SortedParts(q, layout)
  {
    CountPartsOfPermutation(p, q);
  }

  /** Sorting a sorted body again with the same layout changes nothing. */
  lemma Idempotent(parts: seq<Kind>, layout: seq<Kind>)
    ensures SortedParts(SortedParts(parts, layout), layout) == SortedParts(parts, layout)
  {
    OrderIndependent(SortedParts(parts, layout), parts, layout);
  }
}
