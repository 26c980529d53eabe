/**
 * `get_pipeline_permits`' aggregation: permits grouped by block-lot, with the
 * sum of their estimated costs and one count column per permit type present
 * anywhere in the table, zero where a block-lot has none of that type.  The
 * group-by is modelled as one pass that accumulates a map keyed by block-lot;
 * its contract relates every cell to the permits of that block-lot.
 */
module Pipeline {
  import opened Records
  import Tables
  import Text
  import Permits
  import Windows

  /** The estimated cost as `sum` adds it: a missing cost is skipped. */
  function Cost(p: Permit): int
  {
    Permits.OrZero(p.estimatedCost)
  }

  function TotalCost(ps: seq<Permit>): int
  {
    if ps == [] then 0 else Cost(ps[0]) + TotalCost(ps[1..])
  }

  lemma {:induction false} TotalCostAppend(ps: seq<Permit>, p: Permit)
    ensures TotalCost(ps + [p]) == TotalCost(ps) + Cost(p)
  {
    if ps == [] {
      assert [p][1..] == [];
    } else {
      assert (ps + [p])[1..] == ps[1..] + [p];
      TotalCostAppend(ps[1..], p);
    }
  }

  function Sum(s: seq<nat>): nat
  {
    if s == [] then 0 else s[0] + Sum(s[1..])
  }

  function AtBlocklot(b: string): Permit -> bool
  {
    (p: Permit) => p.blocklot == b
  }

  function AtBlocklotType(b: string, t: int): Permit -> bool
  {
    (p: Permit) => p.blocklot == b && p.permitType == t
  }

  function AtBlocklotTypeIn(b: string, ts: set<int>): Permit -> bool
  {
    (p: Permit) => p.blocklot == b && p.permitType in ts
  }

  predicate StrictlySorted(s: seq<int>)
  {
    forall i, j :: 0 <= i < j < |s| ==> s[i] < s[j]
  }

  function InsertSorted(s: seq<int>, t: int): (r: seq<int>)
    requires StrictlySorted(s)
    ensures StrictlySorted(r)
    ensures forall x :: x in r <==> x in s || x == t
  {
    if s == [] then [t]
    else if t < s[0] then [t] + s
    else if t == s[0] then s
    else
      var rest := InsertSorted(s[1..], t);
      assert forall k :: 0 <= k < |rest| ==> rest[k] in s[1..] || rest[k] == t;
      [s[0]] + rest
  }

  /** The permit types present in the table, ascending: the columns of
      `value_counts().unstack()`. */
  function TypesOf(ps: seq<Permit>): (r: seq<int>)
    ensures StrictlySorted(r)
    ensures forall t :: t in r <==> exists p :: p in ps && p.permitType == t
  {
    if ps == [] then []
    else
      var init := ps[..|ps| - 1];
      assert ps == init + [ps[|ps| - 1]];
      InsertSorted(TypesOf(init), ps[|ps| - 1].permitType)
  }

  /** The running totals of one block-lot. */
  datatype Group = Group(cost: int, byType: map<int, nat>)

  function CountOr0(m: map<int, nat>, t: int): nat
  {
    if t in m then m[t] else 0
  }

  function AddToGroups(gs: map<string, Group>, p: Permit): map<string, Group>
  {
    var g := if p.blocklot in gs then gs[p.blocklot] else Group(0, map[]);
    gs[p.blocklot := Group(g.cost + Cost(p), g.byType[p.permitType := CountOr0(g.byType, p.permitType) + 1])]
  }

  /** One pass over the table, accumulating per block-lot totals. */
  function Groups(ps: seq<Permit>): map<string, Group>
    decreases |ps|
  {
    if ps == [] then map[] else AddToGroups(Groups(ps[..|ps| - 1]), ps[|ps| - 1])
  }

  lemma NoneSelected(ps: seq<Permit>, keep: Permit -> bool)
    requires forall p :: p in ps ==> !keep(p)
    ensures Tables.Filter(ps, keep) == []
  {
  }

  /** A block-lot has a group exactly when some permit has that block-lot, and
      the group's cost is the total cost of that block-lot's permits. */
  lemma {:induction false} GroupCost(ps: seq<Permit>, b: string)
    ensures b in Groups(ps) <==> exists p :: p in ps && p.blocklot == b
    ensures b in Groups(ps) ==> Groups(ps)[b].cost == TotalCost(Tables.Filter(ps, AtBlocklot(b)))
  {
    if ps != [] {
      var init, p := ps[..|ps| - 1], ps[|ps| - 1];
      assert ps == init + [p];
      GroupCost(init, b);
      Tables.FilterAppend(init, p, AtBlocklot(b));
      if p.blocklot == b {
        if b !in Groups(init) {
          NoneSelected(init, AtBlocklot(b));
        }
        TotalCostAppend(Tables.Filter(init, AtBlocklot(b)), p);
        assert Tables.Filter(ps, AtBlocklot(b)) == Tables.Filter(init, AtBlocklot(b)) + [p];
      } else {
        assert Tables.Filter(ps, AtBlocklot(b)) == Tables.Filter(init, AtBlocklot(b));
      }
    }
  }

  /** The count of type `t` in a block-lot's group is the number of that
      block-lot's permits of type `t` (zero when there are none). */
  lemma {:induction false} GroupCount(ps: seq<Permit>, b: string, t: int)
    requires b in Groups(ps)
    ensures CountOr0(Groups(ps)[b].byType, t) == |Tables.Filter(ps, AtBlocklotType(b, t))|
  {
    var init, p := ps[..|ps| - 1], ps[|ps| - 1];
    assert ps == init + [p];
    Tables.FilterAppend(init, p, AtBlocklotType(b, t));
    GroupCost(init, b);
    if b in Groups(init) {
      GroupCount(init, b, t);
    } else {
      NoneSelected(init, AtBlocklotType(b, t));
    }
  }

  /** The per-type counts of block-lot `b`, over the types `types`. */
  function CountsFor(ps: seq<Permit>, b: string, types: seq<int>): seq<nat>
  {
    seq(|types|, i requires 0 <= i < |types| => |Tables.Filter(ps, AtBlocklotType(b, types[i]))|)
  }

  /** Over distinct types, the per-type counts add up to the number of the
      block-lot's permits whose type is one of them. */
  lemma {:induction false} SumOfCounts(ps: seq<Permit>, b: string, types: seq<int>)
    requires StrictlySorted(types)
    ensures Sum(CountsFor(ps, b, types)) == |Tables.Filter(ps, AtBlocklotTypeIn(b, set t | t in types))|
  {
    var all := set t | t in types;
    if types == [] {
      NoneSelected(ps, AtBlocklotTypeIn(b, all));
    } else {
      var rest := types[1..];
      var others := set t | t in rest;
      assert CountsFor(ps, b, types)[1..] == CountsFor(ps, b, rest);
      SumOfCounts(ps, b, rest);
      assert all == {types[0]} + others;
      assert types[0] !in others;
      Tables.FilterCountSplit(ps, AtBlocklotTypeIn(b, all), AtBlocklotType(b, types[0]), AtBlocklotTypeIn(b, others));
    }
  }

  /** `fillna(0)` on the unstacked counts of one block-lot. */
  function ZeroFilled(m: map<int, nat>, types: seq<int>): seq<nat>
  {
    seq(|types|, i requires 0 <= i < |types| => CountOr0(m, types[i]))
  }

  datatype PipelineRow = PipelineRow(cost: int, counts: seq<nat>)

  /** The result frame: one row per block-lot (the index), the cost column and
      one count column per permit type, `counts[i]` belonging to `types[i]`. */
  datatype PipelineTable = PipelineTable(
    costColumn: string,
    types: seq<int>,
    typeColumns: seq<string>,
    rows: map<string, PipelineRow>)

  /** Group by block-lot: summed cost and per-type counts, columns named with `prefix`. */
  function Aggregate(ps: seq<Permit>, prefix: string): PipelineTable
  {
    var types := TypesOf(ps);
    var groups := Groups(ps);
    PipelineTable(
      prefix + "_costs",
      types,
      seq(|types|, i requires 0 <= i < |types| => prefix + Text.IntToString(types[i])),
      map b | b in groups :: PipelineRow(groups[b].cost, ZeroFilled(groups[b].byType, types)))
  }

  /** What every row and column of the aggregate holds. */
  ghost predicate AggregateHolds(ps: seq<Permit>, prefix: string, t: PipelineTable)
  {
    && t.costColumn == prefix + "_costs"
    && |t.typeColumns| == |t.types|
    && (forall i :: 0 <= i < |t.types| ==> t.typeColumns[i] == prefix + Text.IntToString(t.types[i]))
    && StrictlySorted(t.types)
    && (forall x :: x in t.types <==> exists p :: p in ps && p.permitType == x)
    && (forall b :: b in t.rows <==> exists p :: p in ps && p.blocklot == b)
    && (forall b :: b in t.rows ==>
          && t.rows[b].cost == TotalCost(Tables.Filter(ps, AtBlocklot(b)))
          && t.rows[b].counts == CountsFor(ps, b, t.types)
          && Sum(t.rows[b].counts) == |Tables.Filter(ps, AtBlocklot(b))|)
  }

  /** One row per block-lot present; its cost is the total cost of that
      block-lot's permits; one count column per type present, ascending, each
      cell the number of that block-lot's permits of that type (zero when
      absent); and a row's counts add up to the block-lot's permit count. */
  lemma AggregateSpec(ps: seq<Permit>, prefix: string)
    ensures AggregateHolds(ps, prefix, Aggregate(ps, prefix))
  {
    var t := Aggregate(ps, prefix);
    var groups := Groups(ps);
    forall b
      ensures b in t.rows <==> exists p :: p in ps && p.blocklot == b
    {
      GroupCost(ps, b);
    }
    forall b | b in t.rows
      ensures t.rows[b].cost == TotalCost(Tables.Filter(ps, AtBlocklot(b)))
      ensures t.rows[b].counts == CountsFor(ps, b, t.types)
      ensures Sum(t.rows[b].counts) == |Tables.Filter(ps, AtBlocklot(b))|
    {
      GroupCost(ps, b);
      forall i | 0 <= i < |t.types|
        ensures t.rows[b].counts[i] == CountsFor(ps, b, t.types)[i]
      {
        GroupCount(ps, b, t.types[i]);
      }
      SumOfCounts(ps, b, t.types);
      var present := set x | x in t.types;
      Tables.FilterSameMask(ps, AtBlocklotTypeIn(b, present), AtBlocklot(b));
    }
  }

  /** `get_pipeline_permits` once the derived columns exist: the permits with
      a date in the cycle's window (the window starting in year 3 for a cycle
      other than 3, 4 or 5), aggregated under the column prefix. */
  function CyclePipeline(rows: seq<Permit>, cycle: int, prefix: string): (t: PipelineTable)
    ensures AggregateHolds(Permits.PermitsInWindow(rows, Windows.CycleStart(cycle, 3)), prefix, t)
  {
    AggregateSpec(Permits.PermitsInWindow(rows, Windows.CycleStart(cycle, 3)), prefix);
    Aggregate(Permits.PermitsInWindow(rows, Windows.CycleStart(cycle, 3)), prefix)
  }
}
