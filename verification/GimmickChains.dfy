/** Sequence chains (internal/masterdata/gimmick.go). */
module GimmickChains {
  import opened Common

  // For every gimmick sequence, all the sequences that follow from it through next
  // groups, breadth first.

  datatype Sequence = Sequence(id: int, nextGroupId: int)

  datatype GroupRow = GroupRow(groupId: int, sequenceId: int)

  /** The two indexes the walk reads. */
  datatype Index = Index(membersByGroup: map<int, seq<int>>, nextGroupBySequence: map<int, int>)
  {
    /** The members of a sequence's next group; group 0 is none. */
    function Next(id: int): seq<int> {
      var group := Count(nextGroupBySequence, id);
      if group == 0 then [] else MembersIn(membersByGroup, group)
    }
  }

  // ---------------------------------------------------------------------------
  // Distance in the graph
  // ---------------------------------------------------------------------------

  ghost predicate PathTo(g: Index, start: int, x: int, n: nat)
    decreases n
  {
    if n == 0 then x == start
    else exists y :: x in g.Next(y) && PathTo(g, start, y, n - 1)
  }

  ghost predicate Reachable(g: Index, start: int, x: int) {
    exists n: nat :: PathTo(g, start, x, n)
  }

  /** n is the length of a shortest path. */
  ghost predicate Distance(g: Index, start: int, x: int, n: nat) {
    PathTo(g, start, x, n) && forall m: nat :: PathTo(g, start, x, m) ==> n <= m
  }

  // ---------------------------------------------------------------------------
  // Breadth-first walk
  // ---------------------------------------------------------------------------

  ghost predicate Distinct(s: seq<int>) {
    forall i, j :: 0 <= i < j < |s| ==> s[i] != s[j]
  }

  /** depth[i] is the length of the path the walk found to chain[i]. */
  ghost predicate Found(g: Index, start: int, chain: seq<int>, depth: seq<nat>) {
    |depth| == |chain| > 0 && chain[0] == start && depth[0] == 0 && Distinct(chain) &&
    NonDecreasing(depth) && forall i :: 0 <= i < |chain| ==> PathTo(g, start, chain[i], depth[i])
  }

  /** The successors of x are in the chain, at most one step deeper than d. */
  ghost predicate Covered(members: seq<int>, d: nat, chain: seq<int>, depth: seq<nat>)
    requires |depth| == |chain|
  {
    forall m :: m in members ==> Near(m, d + 1, chain, depth)
  }

  ghost predicate Near(x: int, d: nat, chain: seq<int>, depth: seq<nat>)
    requires |depth| == |chain|
  {
    exists i :: 0 <= i < |chain| && chain[i] == x && depth[i] <= d
  }

  /** The successors of the first n elements of the chain are covered. */
  ghost predicate AllCovered(g: Index, chain: seq<int>, depth: seq<nat>, n: nat)
    requires |depth| == |chain|
  {
    n <= |chain| && forall k :: 0 <= k < n ==> Covered(g.Next(chain[k]), depth[k], chain, depth)
  }

  lemma AppendFound(g: Index, start: int, chain: seq<int>, depth: seq<nat>, x: int, d: nat)
    requires Found(g, start, chain, depth) && x !in chain
    requires depth[|chain| - 1] <= d && PathTo(g, start, x, d)
    ensures Found(g, start, chain + [x], depth + [d])
  {
  }

  lemma StillCovered(members: seq<int>, d: nat, chain: seq<int>, depth: seq<nat>, x: int, e: nat)
    requires |depth| == |chain| && Covered(members, d, chain, depth)
    ensures Covered(members, d, chain + [x], depth + [e])
  {
    forall m | m in members ensures Near(m, d + 1, chain + [x], depth + [e]) {
      assert Near(m, d + 1, chain, depth);
      var i :| 0 <= i < |chain| && chain[i] == m && depth[i] <= d + 1;
      assert (chain + [x])[i] == m && (depth + [e])[i] <= d + 1;
    }
  }

  lemma StillAllCovered(g: Index, chain: seq<int>, depth: seq<nat>, n: nat, x: int, e: nat)
    requires |depth| == |chain| && AllCovered(g, chain, depth, n)
    ensures AllCovered(g, chain + [x], depth + [e], n)
  {
    forall k | 0 <= k < n ensures Covered(g.Next((chain + [x])[k]), (depth + [e])[k], chain + [x], depth + [e]) {
      StillCovered(g.Next(chain[k]), depth[k], chain, depth, x, e);
    }
  }

  /**
   * The walk has taken chain[..base] off the queue and looked at `members`, the
   * first successors of chain[base].
   */
  ghost predicate Walking(g: Index, start: int, chain: seq<int>, depth: seq<nat>, base: nat, members: seq<int>) {
    Found(g, start, chain, depth) && base < |chain| && AllCovered(g, chain, depth, base) &&
    Covered(members, depth[base], chain, depth) &&
    depth[|chain| - 1] <= depth[base] + 1
  }

  lemma WalkPast(g: Index, start: int, chain: seq<int>, depth: seq<nat>, base: nat, members: seq<int>, m: int)
    requires Walking(g, start, chain, depth, base, members) && m in chain
    ensures Walking(g, start, chain, depth, base, members + [m])
  {
    var j :| 0 <= j < |chain| && chain[j] == m;
    assert depth[j] <= depth[|chain| - 1];
    assert Near(m, depth[base] + 1, chain, depth);
  }

  lemma WalkOnto(g: Index, start: int, chain: seq<int>, depth: seq<nat>, base: nat, members: seq<int>, m: int)
    requires Walking(g, start, chain, depth, base, members) && m !in chain && m in g.Next(chain[base])
    ensures Walking(g, start, chain + [m], depth + [depth[base] + 1], base, members + [m])
  {
    var d := depth[base] + 1;
    assert PathTo(g, start, m, d) by { assert PathTo(g, start, chain[base], d - 1); }
    AppendFound(g, start, chain, depth, m, d);
    StillAllCovered(g, chain, depth, base, m, d);
    StillCovered(members, depth[base], chain, depth, m, d);
    CoverAppended(members, depth[base], chain, depth, m, d);
  }

  lemma CoverAppended(members: seq<int>, d: nat, chain: seq<int>, depth: seq<nat>, x: int, e: nat)
    requires |depth| == |chain| && Covered(members, d, chain + [x], depth + [e]) && e <= d + 1
    ensures Covered(members + [x], d, chain + [x], depth + [e])
  {
    assert (chain + [x])[|chain|] == x && (depth + [e])[|chain|] == e;
    assert Near(x, d + 1, chain + [x], depth + [e]);
  }

  /** A walk that has emptied its queue. */
  ghost predicate Walked(g: Index, start: int, chain: seq<int>, depth: seq<nat>, done: nat) {
    Found(g, start, chain, depth) && done <= |chain| && AllCovered(g, chain, depth, done) &&
    (done < |chain| ==> depth[|chain| - 1] <= depth[done] + 1)
  }

  lemma WalkingDone(g: Index, start: int, chain: seq<int>, depth: seq<nat>, base: nat)
    requires base < |chain| && Walking(g, start, chain, depth, base, g.Next(chain[base]))
    ensures Walked(g, start, chain, depth, base + 1)
  {
    if base + 1 < |chain| {
      assert depth[base] <= depth[base + 1];
    }
  }

  /** Everything on a path of n steps is in a finished chain, at depth n at most. */
  lemma {:induction false} WalkedHoldsPaths(g: Index, start: int, chain: seq<int>, depth: seq<nat>, x: int, n: nat)
    requires Walked(g, start, chain, depth, |chain|) && PathTo(g, start, x, n)
    ensures Near(x, n, chain, depth)
    decreases n
  {
    if n > 0 {
      var y :| x in g.Next(y) && PathTo(g, start, y, n - 1);
      WalkedHoldsPaths(g, start, chain, depth, y, n - 1);
      var i :| 0 <= i < |chain| && chain[i] == y && depth[i] <= n - 1;
      assert Covered(g.Next(chain[i]), depth[i], chain, depth);
      assert Near(x, depth[i] + 1, chain, depth);
    }
  }

  ghost predicate NearestFirst(g: Index, start: int, chain: seq<int>, depth: seq<nat>) {
    |depth| == |chain| && NonDecreasing(depth) &&
    forall i :: 0 <= i < |chain| ==> Distance(g, start, chain[i], depth[i])
  }

  /**
   * A chain starts with its own sequence, repeats none, contains exactly the
   * reachable sequences, cycles or not, and lists them nearest first.
   */
  ghost predicate IsChain(g: Index, start: int, chain: seq<int>) {
    Distinct(chain) && |chain| > 0 && chain[0] == start &&
    (forall x :: x in chain <==> Reachable(g, start, x)) &&
    exists depth :: NearestFirst(g, start, chain, depth)
  }

  lemma WalkedIsShortest(g: Index, start: int, chain: seq<int>, depth: seq<nat>)
    requires Walked(g, start, chain, depth, |chain|)
    ensures IsChain(g, start, chain)
  {
    forall x ensures x in chain <==> Reachable(g, start, x) {
      if x in chain {
        var i :| 0 <= i < |chain| && chain[i] == x;
        assert PathTo(g, start, x, depth[i]);
      } else if n: nat :| PathTo(g, start, x, n) {
        WalkedHoldsPaths(g, start, chain, depth, x, n);
      }
    }
    forall i, m: nat | 0 <= i < |chain| && PathTo(g, start, chain[i], m) ensures depth[i] <= m {
      WalkedHoldsPaths(g, start, chain, depth, chain[i], m);
    }
    assert NearestFirst(g, start, chain, depth);
  }

  /** Every member of a next group; the walk never leaves them and its start. */
  function AllMembers(g: Index): set<int> {
    set group, m | group in g.membersByGroup && m in g.membersByGroup[group] :: m
  }

  ghost predicate SeenIs(seen: set<int>, chain: seq<int>) {
    forall x :: x in seen <==> x in chain
  }

  /** What joins the queue is a member of some group and was not seen before. */
  ghost predicate NewMembers(g: Index, seen: set<int>, added: seq<int>) {
    forall i :: 0 <= i < |added| ==> added[i] in AllMembers(g) && added[i] !in seen
  }

  lemma TakeMember(g: Index, chain: seq<int>, seen: set<int>, seen0: set<int>, added: seq<int>, m: int)
    requires SeenIs(seen, chain + added) && seen0 <= seen && NewMembers(g, seen0, added)
    requires m in AllMembers(g) && m !in seen
    ensures SeenIs(seen + {m}, chain + added + [m]) && seen0 <= seen + {m} && NewMembers(g, seen0, added + [m])
    ensures chain + added + [m] == chain + (added + [m])
  {
  }

  lemma NextAreMembers(g: Index, id: int)
    ensures forall m :: m in g.Next(id) ==> m in AllMembers(g)
  {
  }

  /** Take the next sequence off the queue: its unseen successors join the chain and the queue. */
  method Expand(g: Index, start: int, chain0: seq<int>, seen0: set<int>, cur: int, ghost depth0: seq<nat>,
                ghost base: nat)
    returns (chain: seq<int>, seen: set<int>, added: seq<int>, ghost depth: seq<nat>)
    requires Walked(g, start, chain0, depth0, base) && base < |chain0| && cur == chain0[base]
    requires SeenIs(seen0, chain0)
    ensures Walked(g, start, chain, depth, base + 1)
    ensures chain == chain0 + added && SeenIs(seen, chain) && seen0 <= seen && NewMembers(g, seen0, added)
  {
    chain, seen, added, depth := chain0, seen0, [], depth0;
    var members := g.Next(cur);
    NextAreMembers(g, cur);
    for i := 0 to |members|
      invariant Walking(g, start, chain, depth, base, members[..i])
      invariant chain == chain0 + added && SeenIs(seen, chain) && seen0 <= seen && NewMembers(g, seen0, added)
    {
      var member := members[i];
      assert members[..i + 1] == members[..i] + [member];
      if member in seen {
        WalkPast(g, start, chain, depth, base, members[..i], member);
      } else {
        WalkOnto(g, start, chain, depth, base, members[..i], member);
        TakeMember(g, chain0, seen, seen0, added, member);
        seen := seen + {member};
        chain := chain + [member];
        added := added + [member];
        depth := depth + [depth[base] + 1];
      }
    }
    assert members[..|members|] == members;
    WalkingDone(g, start, chain, depth, base);
  }

  lemma StartWalk(g: Index, start: int)
    ensures Walked(g, start, [start], [0], 0)
  {
    assert PathTo(g, start, start, 0);
  }

  lemma TakeFirst(chain: seq<int>, done: nat, added: seq<int>)
    requires done < |chain|
    ensures chain[done..][1..] + added == (chain + added)[done + 1..]
  {
  }

  ghost function Unseen(g: Index, seen: set<int>): set<int> {
    AllMembers(g) - seen
  }

  /** Each step sees something new or shortens the queue. */
  lemma FewerUnseen(g: Index, before: set<int>, earlier: seq<int>, seen: set<int>, added: seq<int>)
    requires SeenIs(before, earlier) && SeenIs(seen, earlier + added) && NewMembers(g, before, added)
    ensures Unseen(g, seen) < Unseen(g, before) || (Unseen(g, seen) == Unseen(g, before) && added == [])
  {
    if added == [] {
      assert earlier + added == earlier;
      assert forall x :: x in seen <==> x in before;
    } else {
      assert added[0] in Unseen(g, before) && added[0] in earlier + added;
    }
  }

  /** The walk from one sequence. */
  method Chain(g: Index, start: int) returns (chain: seq<int>)
    ensures IsChain(g, start, chain)
  {
    var seen := {start};
    chain := [start];
    ghost var depth: seq<nat> := [0];
    var queue := [start];
    ghost var done: nat := 0;
    StartWalk(g, start);
    while |queue| > 0
      invariant Walked(g, start, chain, depth, done)
      invariant queue == chain[done..]
      invariant SeenIs(seen, chain)
      decreases Unseen(g, seen), |queue|
    {
      var cur := queue[0];
      queue := queue[1..];
      var added;
      ghost var before, earlier := seen, chain;
      chain, seen, added, depth := Expand(g, start, chain, seen, cur, depth, done);
      TakeFirst(earlier, done, added);
      queue := queue + added;
      done := done + 1;
      FewerUnseen(g, before, earlier, seen, added);
    }
    WalkedIsShortest(g, start, chain, depth);
  }

  // ---------------------------------------------------------------------------
  // All chains
  // ---------------------------------------------------------------------------

  lemma {:induction false} PathsCompose(g: Index, start: int, mid: int, x: int, m: nat, n: nat)
    requires PathTo(g, start, mid, m) && PathTo(g, mid, x, n)
    ensures PathTo(g, start, x, m + n)
    decreases n
  {
    if n > 0 {
      var y :| x in g.Next(y) && PathTo(g, mid, y, n - 1);
      PathsCompose(g, start, mid, y, m, n - 1);
    }
  }

  /** What follows a sequence of a chain is in the chain too. */
  lemma ChainsNest(g: Index, s: int, chainS: seq<int>, t: int, chainT: seq<int>, x: int)
    requires IsChain(g, s, chainS) && IsChain(g, t, chainT) && t in chainS && x in chainT
    ensures x in chainS
  {
    var m: nat :| PathTo(g, s, t, m);
    var n: nat :| PathTo(g, t, x, n);
    PathsCompose(g, s, t, x, m, n);
  }

  function MembersIn(members: map<int, seq<int>>, group: int): seq<int> {
    if group in members then members[group] else []
  }

  /** The sequences of a group, in table order. */
  function Members(groups: seq<GroupRow>, group: int): seq<int> {
    if groups == [] then []
    else
      var before, last := Members(groups[..|groups| - 1], group), groups[|groups| - 1];
      if last.groupId == group then before + [last.sequenceId] else before
  }

  /** The next group by the last row of the sequence. */
  function NextGroup(sequences: seq<Sequence>, id: int): int {
    if sequences == [] then 0
    else
      var last := sequences[|sequences| - 1];
      if last.id == id then last.nextGroupId else NextGroup(sequences[..|sequences| - 1], id)
  }

  ghost predicate MembersIndexed(members: map<int, seq<int>>, groups: seq<GroupRow>) {
    forall group :: MembersIn(members, group) == Members(groups, group)
  }

  ghost predicate NextIndexed(next: map<int, int>, sequences: seq<Sequence>) {
    forall id :: Count(next, id) == NextGroup(sequences, id)
  }

  ghost predicate Indexes(g: Index, sequences: seq<Sequence>, groups: seq<GroupRow>) {
    MembersIndexed(g.membersByGroup, groups) && NextIndexed(g.nextGroupBySequence, sequences)
  }

  /** The groups with one more row appended to its group. */
  function Appended(members: map<int, seq<int>>, row: GroupRow): map<int, seq<int>> {
    members[row.groupId := MembersIn(members, row.groupId) + [row.sequenceId]]
  }

  lemma OneMoreMember(members: map<int, seq<int>>, groups: seq<GroupRow>, row: GroupRow)
    requires MembersIndexed(members, groups)
    ensures MembersIndexed(Appended(members, row), groups + [row])
  {
    assert (groups + [row])[..|groups|] == groups;
    forall group ensures MembersIn(Appended(members, row), group) == Members(groups + [row], group) {
      assert MembersIn(members, group) == Members(groups, group);
    }
  }

  lemma OneMoreNext(next: map<int, int>, sequences: seq<Sequence>, row: Sequence)
    requires NextIndexed(next, sequences)
    ensures NextIndexed(next[row.id := row.nextGroupId], sequences + [row])
  {
    assert (sequences + [row])[..|sequences|] == sequences;
    forall id ensures Count(next[row.id := row.nextGroupId], id) == NextGroup(sequences + [row], id) {
      assert Count(next, id) == NextGroup(sequences, id);
    }
  }

  method LoadMembers(groups: seq<GroupRow>) returns (members: map<int, seq<int>>)
    ensures MembersIndexed(members, groups)
  {
    members := map[];
    for i := 0 to |groups|
      invariant MembersIndexed(members, groups[..i])
    {
      OneMoreMember(members, groups[..i], groups[i]);
      assert groups[..i + 1] == groups[..i] + [groups[i]];
      members := Appended(members, groups[i]);
    }
    assert groups[..|groups|] == groups;
  }

  /** The indexes hold the tables: group members in order, and the last row of each sequence. */
  method LoadIndex(sequences: seq<Sequence>, groups: seq<GroupRow>) returns (g: Index)
    ensures Indexes(g, sequences, groups)
  {
    var members := LoadMembers(groups);
    var next: map<int, int> := map[];
    for i := 0 to |sequences|
      invariant NextIndexed(next, sequences[..i])
    {
      OneMoreNext(next, sequences[..i], sequences[i]);
      assert sequences[..i + 1] == sequences[..i] + [sequences[i]];
      next := next[sequences[i].id := sequences[i].nextGroupId];
    }
    assert sequences[..|sequences|] == sequences;
    g := Index(members, next);
  }

  ghost predicate AllChains(g: Index, chains: map<int, seq<int>>) {
    forall id :: id in chains ==> IsChain(g, id, chains[id])
  }

  ghost predicate HasChains(chains: map<int, seq<int>>, sequences: seq<Sequence>, n: nat)
    requires n <= |sequences|
  {
    forall k :: 0 <= k < n ==> sequences[k].id in chains
  }

  lemma AddChain(g: Index, chains: map<int, seq<int>>, id: int, chain: seq<int>)
    requires AllChains(g, chains) && IsChain(g, id, chain)
    ensures AllChains(g, chains[id := chain])
  {
    var after := chains[id := chain];
    forall k | k in after ensures IsChain(g, k, after[k]) {
      if k != id { assert IsChain(g, k, chains[k]); }
    }
  }

  lemma KeepChains(chains: map<int, seq<int>>, sequences: seq<Sequence>, n: nat, chain: seq<int>)
    requires n < |sequences| && HasChains(chains, sequences, n)
    ensures HasChains(chains[sequences[n].id := chain], sequences, n + 1)
  {
  }

  method LoadChains(sequences: seq<Sequence>, groups: seq<GroupRow>) returns (chains: map<int, seq<int>>, g: Index)
    ensures Indexes(g, sequences, groups)
    ensures forall k :: 0 <= k < |sequences| ==> sequences[k].id in chains
    ensures forall id :: id in chains ==> IsChain(g, id, chains[id])
  {
    g := LoadIndex(sequences, groups);
    chains := map[];
    for i := 0 to |sequences|
      invariant HasChains(chains, sequences, i) && AllChains(g, chains)
    {
      var chain := Chain(g, sequences[i].id);
      AddChain(g, chains, sequences[i].id, chain);
      KeepChains(chains, sequences, i, chain);
      chains := chains[sequences[i].id := chain];
    }
  }
}
