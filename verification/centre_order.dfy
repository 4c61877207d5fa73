/** The order of the centre block. Centre sweeps the layout again and again,
    emitting one part per considered layout entry whose kind still has parts; this
    module states that order over the input table alone. KeepFrom is the closed
    form: an entry is kept iff its kind is considered and fewer than c[k] earlier
    entries have that kind. */
module CentreOrder {
  import opened CreepParts
  import opened PartOrder

  /** The layout repeated n times: the entries the first n sweeps look at, in order. */
  function Rounds(layout: seq<Kind>, n: nat): seq<Kind>
  {
    if n == 0 then [] else Rounds(layout, n - 1) + layout
  }

  /** Every entry of the n rounds is an entry of the layout. */
  lemma {:induction false} RoundsMembers(layout: seq<Kind>, n: nat, k: Kind)
    requires k in Rounds(layout, n)
    ensures k in layout
  {
    if n > 0 && k !in layout {
      RoundsMembers(layout, n - 1, k);
    }
  }

  /** The first of n rounds can be split off at the front as well as the last at the back. */
  lemma {:induction false} RoundsFront(layout: seq<Kind>, n: nat, m: nat)
    requires n == m + 1
    ensures Rounds(layout, n) == layout + Rounds(layout, m)
  {
    if m >= 1 {
      var p: nat := m - 1;
      RoundsFront(layout, m, p);
      AppendAssociative(layout, Rounds(layout, p), layout);
    }
  }

  /** Round-robin selection stated over the input table alone: an entry of s is kept
      iff its kind is considered and fewer than c[k] entries of that kind come before
      it, counting those already seen. */
  function KeepFrom(seen: seq<Kind>, s: seq<Kind>, haveRangedAttack: bool, c: Counts): (r: seq<Kind>)
    requires Valid(c)
    ensures |r| <= |s|
    decreases |s|
  {
    if s == [] then []
    else
      var k := s[0];
      (if Considered(k, haveRangedAttack) && multiset(seen)[k] < c[k] then [k] else [])
        + KeepFrom(seen + [k], s[1..], haveRangedAttack, c)
  }

  /** Selecting over two lists in a row is selecting over the first, then over the
      second with the first counted as seen. */
  lemma {:induction false} KeepFromAppend(seen: seq<Kind>, a: seq<Kind>, b: seq<Kind>, haveRangedAttack: bool, c: Counts)
    requires Valid(c)
    ensures KeepFrom(seen, a + b, haveRangedAttack, c)
            == KeepFrom(seen, a, haveRangedAttack, c) + KeepFrom(seen + a, b, haveRangedAttack, c)
    decreases |a|
  {
    if a == [] {
      assert a + b == b && seen + a == seen;
    } else {
      var k := a[0];
      assert (a + b)[0] == k && (a + b)[1..] == a[1..] + b;
      assert (seen + [k]) + a[1..] == seen + a;
      KeepFromAppend(seen + [k], a[1..], b, haveRangedAttack, c);
      var head := if Considered(k, haveRangedAttack) && multiset(seen)[k] < c[k] then [k] else [];
      AppendAssociative(head, KeepFrom(seen + [k], a[1..], haveRangedAttack, c), KeepFrom(seen + a, b, haveRangedAttack, c));
    }
  }

  /** Once every considered kind of s has been seen c[k] times, nothing more is kept. */
  lemma {:induction false} KeepNone(seen: seq<Kind>, s: seq<Kind>, haveRangedAttack: bool, c: Counts)
    requires Valid(c)
    requires forall k :: k in s && Considered(k, haveRangedAttack) ==> multiset(seen)[k] >= c[k]
    ensures KeepFrom(seen, s, haveRangedAttack, c) == []
    decreases |s|
  {
    if s != [] {
      assert forall j :: j in s[1..] ==> j in s;
      KeepNone(seen + [s[0]], s[1..], haveRangedAttack, c);
    }
  }

  /** The table once the entries of seen have been swept against c: a considered kind
      loses one part per entry, down to 0; other kinds keep their count. */
  function Drained(seen: seq<Kind>, haveRangedAttack: bool, c: Counts): (d: Counts)
    requires Valid(c)
    ensures Valid(d)
    ensures forall k {:trigger d[k]} :: d[k] == if !Considered(k, haveRangedAttack) then c[k]
                                 else if multiset(seen)[k] < c[k] then c[k] - multiset(seen)[k] else 0
  {
    forall k: Kind ensures k in MapOrder { assert MapOrder[Rank(k)] == k; }
    map k | k in MapOrder :: if !Considered(k, haveRangedAttack) then c[k]
                             else if multiset(seen)[k] < c[k] then c[k] - multiset(seen)[k] else 0
  }

  /** Sweeping a kept entry, kind by kind: its own kind drops by one, the others
      keep their count. */
  lemma DrainedKeepAt(seen: seq<Kind>, k: Kind, haveRangedAttack: bool, c: Counts, j: Kind)
    requires Valid(c) && Considered(k, haveRangedAttack) && multiset(seen)[k] < c[k]
    ensures var d := Drained(seen, haveRangedAttack, c);
            Drained(seen + [k], haveRangedAttack, c)[j] == d[k := d[k] - 1][j]
  {
    assert multiset(seen + [k]) == multiset(seen) + multiset{k};
  }

  /** Sweeping a kept entry lowers its kind's count by one. */
  lemma DrainedKeep(seen: seq<Kind>, k: Kind, haveRangedAttack: bool, c: Counts)
    requires Valid(c) && Considered(k, haveRangedAttack) && multiset(seen)[k] < c[k]
    ensures var d := Drained(seen, haveRangedAttack, c);
            Drained(seen + [k], haveRangedAttack, c) == d[k := d[k] - 1]
  {
    var d := Drained(seen, haveRangedAttack, c);
    var d' := Drained(seen + [k], haveRangedAttack, c);
    var e := d[k := d[k] - 1];
    assert Valid(e);
    forall j ensures d'[j] == e[j] {
      DrainedKeepAt(seen, k, haveRangedAttack, c, j);
    }
    SameTable(d', e);
  }

  /** Sweeping an entry that is not kept leaves the table as it was. */
  lemma DrainedSkip(seen: seq<Kind>, k: Kind, haveRangedAttack: bool, c: Counts)
    requires Valid(c) && !(Considered(k, haveRangedAttack) && multiset(seen)[k] < c[k])
    ensures Drained(seen + [k], haveRangedAttack, c) == Drained(seen, haveRangedAttack, c)
  {
    assert multiset(seen + [k]) == multiset(seen) + multiset{k};
    SameTable(Drained(seen + [k], haveRangedAttack, c), Drained(seen, haveRangedAttack, c));
  }

  /** Sweeping one more entry: a kept entry lowers its count by one; any other entry
      leaves the table as it was. */
  lemma DrainedStep(seen: seq<Kind>, k: Kind, haveRangedAttack: bool, c: Counts)
    requires Valid(c)
    ensures var d := Drained(seen, haveRangedAttack, c);
            Drained(seen + [k], haveRangedAttack, c)
            == if Considered(k, haveRangedAttack) && multiset(seen)[k] < c[k] then d[k := d[k] - 1] else d
  {
    if Considered(k, haveRangedAttack) && multiset(seen)[k] < c[k] {
      DrainedKeep(seen, k, haveRangedAttack, c);
    } else {
      DrainedSkip(seen, k, haveRangedAttack, c);
    }
  }

  /** Nothing swept yet: the table is the input table. */
  lemma DrainedNothing(haveRangedAttack: bool, c: Counts)
    requires Valid(c)
    ensures Drained([], haveRangedAttack, c) == c
  {
    SameTable(Drained([], haveRangedAttack, c), c);
  }

  /** One step of a sweep: a considered kind in stock is taken, any other entry is
      passed over. */
  lemma ScanLayoutStep(ks: seq<Kind>, haveRangedAttack: bool, d: Counts, acc: seq<Kind>, emitted: bool)
    requires Valid(d) && ks != []
    ensures var k := ks[0];
            ScanLayout(ks, haveRangedAttack, d, acc, emitted)
            == if Considered(k, haveRangedAttack) && d[k] > 0
               then ScanLayout(ks[1..], haveRangedAttack, d[k := d[k] - 1], acc + [k], true)
               else ScanLayout(ks[1..], haveRangedAttack, d, acc, emitted)
  {
  }

  /** One sweep over ks, started after seen, emits the entries KeepFrom selects. */
  lemma {:induction false} ScanKeeps(seen: seq<Kind>, ks: seq<Kind>, haveRangedAttack: bool, c: Counts, acc: seq<Kind>, emitted: bool)
    requires Valid(c)
    ensures ScanLayout(ks, haveRangedAttack, Drained(seen, haveRangedAttack, c), acc, emitted).parts
            == acc + KeepFrom(seen, ks, haveRangedAttack, c)
    decreases |ks|
  {
    if ks != [] {
      var k := ks[0];
      var rest := KeepFrom(seen + [k], ks[1..], haveRangedAttack, c);
      DrainedStep(seen, k, haveRangedAttack, c);
      ScanLayoutStep(ks, haveRangedAttack, Drained(seen, haveRangedAttack, c), acc, emitted);
      if Considered(k, haveRangedAttack) && multiset(seen)[k] < c[k] {
        ScanKeeps(seen + [k], ks[1..], haveRangedAttack, c, acc + [k], true);
        assert KeepFrom(seen, ks, haveRangedAttack, c) == [k] + rest;
        AppendAssociative(acc, [k], rest);
      } else {
        ScanKeeps(seen + [k], ks[1..], haveRangedAttack, c, acc, emitted);
        assert KeepFrom(seen, ks, haveRangedAttack, c) == [] + rest;
        PushOntoEmpty(rest);
      }
    }
  }

  /** One sweep over ks, started after seen, leaves the table drained by seen and ks. */
  lemma {:induction false} ScanDrains(seen: seq<Kind>, ks: seq<Kind>, haveRangedAttack: bool, c: Counts, acc: seq<Kind>, emitted: bool)
    requires Valid(c)
    ensures ScanLayout(ks, haveRangedAttack, Drained(seen, haveRangedAttack, c), acc, emitted).left
            == Drained(seen + ks, haveRangedAttack, c)
    decreases |ks|
  {
    if ks == [] {
      assert seen + ks == seen;
    } else {
      var k := ks[0];
      assert (seen + [k]) + ks[1..] == seen + ks;
      DrainedStep(seen, k, haveRangedAttack, c);
      ScanLayoutStep(ks, haveRangedAttack, Drained(seen, haveRangedAttack, c), acc, emitted);
      if Considered(k, haveRangedAttack) && multiset(seen)[k] < c[k] {
        ScanDrains(seen + [k], ks[1..], haveRangedAttack, c, acc + [k], true);
      } else {
        ScanDrains(seen + [k], ks[1..], haveRangedAttack, c, acc, emitted);
      }
    }
  }

  /** A sweep after seen that keeps something lowers the parts left to place. */
  lemma SweepDrains(seen: seq<Kind>, layout: seq<Kind>, haveRangedAttack: bool, c: Counts)
    requires Valid(c) && KeepFrom(seen, layout, haveRangedAttack, c) != []
    ensures Total(Drained(seen + layout, haveRangedAttack, c)) < Total(Drained(seen, haveRangedAttack, c))
  {
    ScanKeeps(seen, layout, haveRangedAttack, c, [], false);
    ScanDrains(seen, layout, haveRangedAttack, c, [], false);
    PushOntoEmpty(KeepFrom(seen, layout, haveRangedAttack, c));
  }

  /** Round-robin sweeps over the layout, started after seen, until a sweep keeps
      nothing: each sweep keeps what KeepFrom selects from the layout. */
  function RoundRobin(seen: seq<Kind>, layout: seq<Kind>, haveRangedAttack: bool, c: Counts): seq<Kind>
    requires Valid(c)
    decreases Total(Drained(seen, haveRangedAttack, c))
  {
    var first := KeepFrom(seen, layout, haveRangedAttack, c);
    if first == [] then []
    else
      SweepDrains(seen, layout, haveRangedAttack, c);
      first + RoundRobin(seen + layout, layout, haveRangedAttack, c)
  }

  /** One step of the centre loop, once seen has been swept: the sweep emits what
      KeepFrom selects from the layout, and the loop goes on from the table drained
      by one more round iff it emitted something. */
  lemma CentreLoopUnroll(layout: seq<Kind>, haveRangedAttack: bool, c: Counts, seen: seq<Kind>, acc: seq<Kind>)
    requires Valid(c)
    ensures var first := KeepFrom(seen, layout, haveRangedAttack, c);
            first != [] ==>
              CentreLoop(layout, haveRangedAttack, Drained(seen, haveRangedAttack, c), acc, true)
              == CentreLoop(layout, haveRangedAttack, Drained(seen + layout, haveRangedAttack, c), acc + first, true)
    ensures KeepFrom(seen, layout, haveRangedAttack, c) == [] ==>
              CentreLoop(layout, haveRangedAttack, Drained(seen, haveRangedAttack, c), acc, true).parts == acc
  {
    ScanKeeps(seen, layout, haveRangedAttack, c, acc, false);
    ScanDrains(seen, layout, haveRangedAttack, c, acc, false);
  }

  /** After a quiet sweep RoundRobin adds nothing. */
  lemma RoundRobinQuiet(seen: seq<Kind>, layout: seq<Kind>, haveRangedAttack: bool, c: Counts, acc: seq<Kind>)
    requires Valid(c) && KeepFrom(seen, layout, haveRangedAttack, c) == []
    ensures acc + RoundRobin(seen, layout, haveRangedAttack, c) == acc
  {
    assert RoundRobin(seen, layout, haveRangedAttack, c) == [];
    assert acc + [] == acc;
  }

  /** A quiet sweep ends both the centre loop and RoundRobin. */
  lemma QuietLoop(layout: seq<Kind>, haveRangedAttack: bool, c: Counts, seen: seq<Kind>, acc: seq<Kind>)
    requires Valid(c) && KeepFrom(seen, layout, haveRangedAttack, c) == []
    ensures CentreLoop(layout, haveRangedAttack, Drained(seen, haveRangedAttack, c), acc, true).parts
            == acc + RoundRobin(seen, layout, haveRangedAttack, c)
  {
    CentreLoopUnroll(layout, haveRangedAttack, c, seen, acc);
    RoundRobinQuiet(seen, layout, haveRangedAttack, c, acc);
  }

  /** The inductive step of CentreLoopKeeps for an emitting sweep, which lowers the
      parts left: the claim for the table drained by one more round gives the claim
      for this one. */
  lemma EmittingLoop(layout: seq<Kind>, haveRangedAttack: bool, c: Counts, seen: seq<Kind>, acc: seq<Kind>)
    requires Valid(c) && KeepFrom(seen, layout, haveRangedAttack, c) != []
    ensures var first := KeepFrom(seen, layout, haveRangedAttack, c);
            && Total(Drained(seen + layout, haveRangedAttack, c)) < Total(Drained(seen, haveRangedAttack, c))
            && (CentreLoop(layout, haveRangedAttack, Drained(seen + layout, haveRangedAttack, c), acc + first, true).parts
                == (acc + first) + RoundRobin(seen + layout, layout, haveRangedAttack, c)
                ==> CentreLoop(layout, haveRangedAttack, Drained(seen, haveRangedAttack, c), acc, true).parts
                    == acc + RoundRobin(seen, layout, haveRangedAttack, c))
  {
    var first := KeepFrom(seen, layout, haveRangedAttack, c);
    CentreLoopUnroll(layout, haveRangedAttack, c, seen, acc);
    SweepDrains(seen, layout, haveRangedAttack, c);
    AppendAssociative(acc, first, RoundRobin(seen + layout, layout, haveRangedAttack, c));
  }

  /** The sweeps that start once seen has been swept emit what RoundRobin keeps. */
  lemma {:induction false} CentreLoopKeeps(layout: seq<Kind>, haveRangedAttack: bool, c: Counts, seen: seq<Kind>, acc: seq<Kind>)
    requires Valid(c)
    ensures CentreLoop(layout, haveRangedAttack, Drained(seen, haveRangedAttack, c), acc, true).parts
            == acc + RoundRobin(seen, layout, haveRangedAttack, c)
    decreases Total(Drained(seen, haveRangedAttack, c))
  {
    if KeepFrom(seen, layout, haveRangedAttack, c) != [] {
      EmittingLoop(layout, haveRangedAttack, c, seen, acc);
      CentreLoopKeeps(layout, haveRangedAttack, c, seen + layout, acc + KeepFrom(seen, layout, haveRangedAttack, c));
    } else {
      QuietLoop(layout, haveRangedAttack, c, seen, acc);
    }
  }

  /** n = m + 1 rounds select what the first round selects, then what the other m
      rounds select after it. */
  lemma RoundsSplit(layout: seq<Kind>, haveRangedAttack: bool, c: Counts, seen: seq<Kind>, n: nat, m: nat)
    requires Valid(c) && n == m + 1
    ensures KeepFrom(seen, Rounds(layout, n), haveRangedAttack, c)
            == KeepFrom(seen, layout, haveRangedAttack, c) + KeepFrom(seen + layout, Rounds(layout, m), haveRangedAttack, c)
  {
    RoundsFront(layout, n, m);
    KeepFromAppend(seen, layout, Rounds(layout, m), haveRangedAttack, c);
  }

  /** After a sweep that selects nothing, no later round selects anything either. */
  lemma QuietSweepKeepsNone(layout: seq<Kind>, haveRangedAttack: bool, c: Counts, seen: seq<Kind>, n: nat)
    requires Valid(c) && KeepFrom(seen, layout, haveRangedAttack, c) == []
    ensures KeepFrom(seen, Rounds(layout, n), haveRangedAttack, c) == []
  {
    var d := Drained(seen, haveRangedAttack, c);
    ScanKeeps(seen, layout, haveRangedAttack, c, [], false);
    forall k | k in Rounds(layout, n) && Considered(k, haveRangedAttack)
      ensures multiset(seen)[k] >= c[k]
    {
      RoundsMembers(layout, n, k);
      assert d[k] == 0;
    }
    KeepNone(seen, Rounds(layout, n), haveRangedAttack, c);
  }

  /** With at least as many rounds as parts left, the round-robin sweeps keep what
      KeepFrom selects from the layout repeated n times. */
  lemma {:induction false} RoundRobinFlat(seen: seq<Kind>, layout: seq<Kind>, haveRangedAttack: bool, c: Counts, n: nat)
    requires Valid(c) && n >= Total(Drained(seen, haveRangedAttack, c))
    ensures RoundRobin(seen, layout, haveRangedAttack, c) == KeepFrom(seen, Rounds(layout, n), haveRangedAttack, c)
    decreases n, 1
  {
    if KeepFrom(seen, layout, haveRangedAttack, c) != [] {
      EmittingRounds(seen, layout, haveRangedAttack, c, n);
    } else {
      QuietSweepKeepsNone(layout, haveRangedAttack, c, seen, n);
    }
  }

  /** RoundRobinFlat after a sweep that keeps something: that sweep uses up one of
      the rounds, and the claim for the others gives the claim for all of them. */
  lemma {:induction false} EmittingRounds(seen: seq<Kind>, layout: seq<Kind>, haveRangedAttack: bool, c: Counts, n: nat)
    requires Valid(c) && n >= Total(Drained(seen, haveRangedAttack, c))
    requires KeepFrom(seen, layout, haveRangedAttack, c) != []
    ensures RoundRobin(seen, layout, haveRangedAttack, c) == KeepFrom(seen, Rounds(layout, n), haveRangedAttack, c)
    decreases n, 0
  {
    SweepDrains(seen, layout, haveRangedAttack, c);
    var m: nat := n - 1;
    RoundRobinFlat(seen + layout, layout, haveRangedAttack, c, m);
    RoundsSplit(layout, haveRangedAttack, c, seen, n, m);
  }

  /** The centre block in round-robin order: the sweeps keep, in layout order, each
      layout entry whose kind is considered and still has parts; in closed form, an
      entry of the layout repeated Total(c) times is kept iff its kind is considered
      and fewer than c[k] earlier entries have that kind. */
  lemma CentreRoundRobin(layout: seq<Kind>, haveRangedAttack: bool, c: Counts)
    requires Valid(c)
    ensures Centre(layout, haveRangedAttack, c).parts == RoundRobin([], layout, haveRangedAttack, c)
    ensures Centre(layout, haveRangedAttack, c).parts == KeepFrom([], Rounds(layout, Total(c)), haveRangedAttack, c)
  {
    DrainedNothing(haveRangedAttack, c);
    CentreLoopKeeps(layout, haveRangedAttack, c, [], []);
    PushOntoEmpty(RoundRobin([], layout, haveRangedAttack, c));
    RoundRobinFlat([], layout, haveRangedAttack, c, Total(c));
  }
}
