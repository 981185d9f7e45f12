/** What a sequence chain lists, from the tables. */
module GimmickChainRows {
  import opened Common
  import opened GimmickChains

  // The chains of internal/masterdata/gimmick.go on the rows of the tables: which sequences
  // follow which, and where each stands in the chain.

  ghost predicate UniqueSequences(sequences: seq<Sequence>) {
    forall a, b :: a in sequences && b in sequences && a.id == b.id ==> a == b
  }

  /** The row of y names a next group, other than 0, that x is a member of. */
  ghost predicate Follows(sequences: seq<Sequence>, groups: seq<GroupRow>, y: int, x: int) {
    exists q :: q != 0 && Sequence(y, q) in sequences && GroupRow(q, x) in groups
  }

  /** n rows lead from the start to x. */
  ghost predicate Leads(sequences: seq<Sequence>, groups: seq<GroupRow>, start: int, x: int, n: nat)
    decreases n
  {
    if n == 0 then x == start
    else exists y :: Leads(sequences, groups, start, y, n - 1) && Follows(sequences, groups, y, x)
  }

  ghost predicate LeadTo(sequences: seq<Sequence>, groups: seq<GroupRow>, start: int, x: int) {
    exists n: nat :: Leads(sequences, groups, start, x, n)
  }

  lemma {:induction false} MembersHold(groups: seq<GroupRow>, group: int, x: int)
    ensures x in Members(groups, group) <==> GroupRow(group, x) in groups
  {
    if groups != [] {
      var n := |groups| - 1;
      MembersHold(groups[..n], group, x);
      assert groups == groups[..n] + [groups[n]];
    }
  }

  lemma {:induction false} NextGroupHolds(sequences: seq<Sequence>, id: int)
    ensures Sequence(id, NextGroup(sequences, id)) in sequences ||
      (NextGroup(sequences, id) == 0 && forall s :: s in sequences ==> s.id != id)
  {
    if sequences != [] {
      var n := |sequences| - 1;
      NextGroupHolds(sequences[..n], id);
      assert sequences == sequences[..n] + [sequences[n]];
    }
  }

  lemma NextFollows(g: Index, sequences: seq<Sequence>, groups: seq<GroupRow>, y: int, x: int)
    requires Indexes(g, sequences, groups) && UniqueSequences(sequences)
    ensures x in g.Next(y) <==> Follows(sequences, groups, y, x)
  {
    var q := NextGroup(sequences, y);
    NextGroupHolds(sequences, y);
    MembersHold(groups, q, x);
    assert Count(g.nextGroupBySequence, y) == q && MembersIn(g.membersByGroup, q) == Members(groups, q);
    forall p | Sequence(y, p) in sequences ensures p == q {
      assert Sequence(y, p).id == Sequence(y, q).id;
    }
  }

  lemma {:induction false} PathLeads(g: Index, sequences: seq<Sequence>, groups: seq<GroupRow>, start: int, x: int,
                                     n: nat)
    requires Indexes(g, sequences, groups) && UniqueSequences(sequences)
    ensures PathTo(g, start, x, n) <==> Leads(sequences, groups, start, x, n)
    decreases n
  {
    if n > 0 {
      forall y ensures x in g.Next(y) && PathTo(g, start, y, n - 1) <==>
          Leads(sequences, groups, start, y, n - 1) && Follows(sequences, groups, y, x) {
        NextFollows(g, sequences, groups, y, x);
        PathLeads(g, sequences, groups, start, y, n - 1);
      }
    }
  }

  /** A chain starts with its sequence, lists exactly what the rows lead to, and nothing twice. */
  lemma ChainLists(g: Index, sequences: seq<Sequence>, groups: seq<GroupRow>, start: int, chain: seq<int>)
    requires Indexes(g, sequences, groups) && UniqueSequences(sequences) && IsChain(g, start, chain)
    ensures |chain| > 0 && chain[0] == start && forall i, j :: 0 <= i < j < |chain| ==> chain[i] != chain[j]
    ensures forall x :: x in chain <==> LeadTo(sequences, groups, start, x)
  {
    forall x ensures x in chain <==> LeadTo(sequences, groups, start, x) {
      if x in chain {
        assert Reachable(g, start, x);
        var n: nat :| PathTo(g, start, x, n);
        PathLeads(g, sequences, groups, start, x, n);
      }
      if n: nat :| Leads(sequences, groups, start, x, n) {
        PathLeads(g, sequences, groups, start, x, n);
        assert Reachable(g, start, x);
      }
    }
  }

  /** Nothing in the chain stands behind something that takes more rows to reach. */
  lemma ChainIsNearestFirst(g: Index, sequences: seq<Sequence>, groups: seq<GroupRow>, start: int, chain: seq<int>,
                            i: nat, j: nat, m: nat)
    requires Indexes(g, sequences, groups) && UniqueSequences(sequences) && IsChain(g, start, chain)
    requires i < j < |chain| && Leads(sequences, groups, start, chain[j], m)
    ensures exists n: nat :: n <= m && Leads(sequences, groups, start, chain[i], n)
  {
    var depth :| NearestFirst(g, start, chain, depth);
    PathLeads(g, sequences, groups, start, chain[j], m);
    PathLeads(g, sequences, groups, start, chain[i], depth[i]);
    assert depth[i] <= depth[j] <= m;
  }
}
