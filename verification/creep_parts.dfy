/** Body part kinds and the per-kind count table that `sortCreepParts` works on. */
module CreepParts {

  /** The eight body part kinds of a creep. */
  datatype Kind = Tough | Move | Carry | Work | Claim | Heal | Attack | RangedAttack

  /** The keys of the count map in the order the map literal inserts them; this is
      the order in which the map's entries are iterated. */
  const MapOrder: seq<Kind> := [Tough, Move, Carry, Work, Claim, Heal, Attack, RangedAttack]

  /** The position of a kind in MapOrder. */
  function Rank(k: Kind): (i: nat)
    ensures i < |MapOrder| && MapOrder[i] == k
  {
    match k
    case Tough => 0
    case Move => 1
    case Carry => 2
    case Work => 3
    case Claim => 4
    case Heal => 5
    case Attack => 6
    case RangedAttack => 7
  }

  /** Rank inverts MapOrder. */
  lemma RankOfMapOrder(n: nat)
    requires n < |MapOrder|
    ensures Rank(MapOrder[n]) == n
  {
    if n == 0 {} else if n == 1 {} else if n == 2 {} else if n == 3 {}
    else if n == 4 {} else if n == 5 {} else if n == 6 {} else {}
  }

  /** A per-kind count table. */
  type Counts = map<Kind, int>

  /** Every kind has an entry, and no entry is negative. */
  predicate Valid(c: Counts) {
    forall k: Kind :: k in c && c[k] >= 0
  }

  /** The map literal every sort starts from: each kind present, with count 0. */
  const Zero: Counts := map[Tough := 0, Move := 0, Carry := 0, Work := 0,
                            Claim := 0, Heal := 0, Attack := 0, RangedAttack := 0]

  /** The number of parts a table still holds. */
  function Total(c: Counts): nat
    requires Valid(c)
  {
    c[Tough] + c[Move] + c[Carry] + c[Work] + c[Claim] + c[Heal] + c[Attack] + c[RangedAttack]
  }

  /** Taking one part of kind k out of a table lowers its total by one. */
  lemma TotalDecrement(c: Counts, k: Kind)
    requires Valid(c) && c[k] > 0
    ensures Valid(c[k := c[k] - 1]) && Total(c[k := c[k] - 1]) == Total(c) - 1
  {
    match k
    case Tough =>
    case Move =>
    case Carry =>
    case Work =>
    case Claim =>
    case Heal =>
    case Attack =>
    case RangedAttack =>
  }

  /** `Array(n).fill(k)`: n copies of k. */
  function Repeat(k: Kind, n: nat): (r: seq<Kind>)
    ensures |r| == n
    ensures forall i :: 0 <= i < n ==> r[i] == k
    ensures multiset(r)[k] == n
    ensures forall j :: j != k ==> multiset(r)[j] == 0
  {
    if n == 0 then [] else Repeat(k, n - 1) + [k]
  }

  /** No kind occurs twice. */
  predicate Distinct(s: seq<Kind>) {
    forall i, j :: 0 <= i < j < |s| ==> s[i] != s[j]
  }

  /** The count table of a list of parts: one entry per kind, holding how often
      that kind occurs. */
  function CountParts(parts: seq<Kind>): (c: Counts)
    ensures Valid(c)
    ensures forall k :: c[k] == multiset(parts)[k]
  {
    forall k: Kind ensures k in MapOrder { assert MapOrder[Rank(k)] == k; }
    map k | k in MapOrder :: multiset(parts)[k]
  }

  /** Two complete tables that agree on every kind are the same table. */
  lemma SameTable(c: Counts, d: Counts)
    requires Valid(c) && Valid(d) && forall k :: c[k] == d[k]
    ensures c == d
  {
    assert forall k :: k in c && k in d && c[k] == d[k];
  }

  /** Two lists with the same parts, in whatever order, have the same count table. */
  lemma CountPartsOfPermutation(p: seq<Kind>, q: seq<Kind>)
    requires multiset(p) == multiset(q)
    ensures CountParts(p) == CountParts(q)
  {
    SameTable(CountParts(p), CountParts(q));
  }

  /** The distinct kinds of a layout in order of first occurrence: what a `Set`
      filled by one `add` per element iterates over. */
  function Unique(layout: seq<Kind>): (u: seq<Kind>)
    ensures Distinct(u)
    ensures forall k :: k in u <==> k in layout
    decreases |layout|
  {
    if layout == [] then []
    else
      var init := layout[..|layout| - 1];
      var k := layout[|layout| - 1];
      var u := Unique(init);
      assert layout == init + [k];
      if k in u then u else u + [k]
  }

  /** Unique lists kinds in order of first occurrence: whenever u[i] comes before
      u[j], u[i] occurs in the layout before any occurrence of u[j]. */
  lemma {:induction false} UniqueFirstOccurrence(layout: seq<Kind>, i: nat, j: nat, p: nat)
    requires i < j < |Unique(layout)| && p < |layout| && layout[p] == Unique(layout)[j]
    ensures Unique(layout)[i] in layout[..p]
    decreases |layout|
  {
    var init := layout[..|layout| - 1];
    var k := layout[|layout| - 1];
    var u := Unique(init);
    assert layout == init + [k];
    if p < |init| {
      assert init[p] == layout[p];
      if k in u {
        UniqueFirstOccurrence(init, i, j, p);
      } else {
        assert j < |u|;
        UniqueFirstOccurrence(init, i, j, p);
      }
      assert init[..p] == layout[..p];
    } else {
      assert Unique(layout)[i] in u;
      assert layout[..p] == init;
    }
  }
}
