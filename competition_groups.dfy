/**
 * Grouping of the match list by competition
 * (the `groups` computation in frontend/src/components/MatchesList.tsx).
 *
 * The source walks the matches once, keeps a `Map` from competition id to its
 * group, creates a group the first time an id is seen and pushes each match
 * onto its group; `Array.from(map.values())` then lists the groups in
 * insertion order. `GroupByCompetition` is that loop; `Grouped` is the
 * declarative definition it is proved against.
 */
module CompetitionGroups {
  import opened MatchTypes

  datatype CompetitionGroup = CompetitionGroup(
    competitionId: int,
    competitionName: string,
    competitionEmblem: string,
    areaName: string,
    areaFlag: string,
    matches: seq<Match>)

  /** Distinct competition ids, in the order each is first seen. */
  function CompetitionIds(ms: seq<Match>): seq<int> {
    if ms == [] then []
    else
      var ids := CompetitionIds(ms[..|ms| - 1]);
      var id := ms[|ms| - 1].competition.id;
      if id in ids then ids else ids + [id]
  }

  /** The matches of one competition, in input order. */
  function InCompetition(ms: seq<Match>, id: int): seq<Match> {
    if ms == [] then []
    else
      var last := ms[|ms| - 1];
      InCompetition(ms[..|ms| - 1], id) + (if last.competition.id == id then [last] else [])
  }

  /** The first match of a competition that occurs in the input. */
  function FirstIn(ms: seq<Match>, id: int): Match
    requires id in CompetitionIds(ms)
  {
    var init := ms[..|ms| - 1];
    if id in CompetitionIds(init) then FirstIn(init, id) else ms[|ms| - 1]
  }

  /** A group's header taken from match `m`, with the given matches. */
  function NewGroup(m: Match, matches: seq<Match>): (g: CompetitionGroup)
    ensures g.competitionId == m.competition.id && g.matches == matches
    ensures g.competitionName == m.competition.name && g.competitionEmblem == m.competition.emblem
    ensures g.areaName == m.area.name && g.areaFlag == m.area.flag
  {
    CompetitionGroup(m.competition.id, m.competition.name, m.competition.emblem, m.area.name, m.area.flag, matches)
  }

  function GroupOf(ms: seq<Match>, id: int): CompetitionGroup
    requires id in CompetitionIds(ms)
  {
    var first := FirstIn(ms, id);
    CompetitionGroup(id, first.competition.name, first.competition.emblem, first.area.name, first.area.flag,
      InCompetition(ms, id))
  }

  /** One group per competition id, in first-seen order. */
  function Grouped(ms: seq<Match>): seq<CompetitionGroup> {
    var ids := CompetitionIds(ms);
    seq(|ids|, i requires 0 <= i < |ids| => GroupOf(ms, ids[i]))
  }

  /** Total number of matches across the groups. */
  function TotalMatches(gs: seq<CompetitionGroup>): nat {
    if gs == [] then 0 else TotalMatches(gs[..|gs| - 1]) + |gs[|gs| - 1].matches|
  }

  // ---------------------------------------------------------------------------
  // Facts about the declarative definition

  predicate Distinct(ids: seq<int>) {
    forall a, b :: 0 <= a < b < |ids| ==> ids[a] != ids[b]
  }

  lemma {:induction false} CompetitionIdsDistinct(ms: seq<Match>)
    ensures Distinct(CompetitionIds(ms))
  {
    if ms != [] {
      var init := ms[..|ms| - 1];
      CompetitionIdsDistinct(init);
      var initIds := CompetitionIds(init);
      var id := ms[|ms| - 1].competition.id;
      if id !in initIds {
        var ids := initIds + [id];
        assert CompetitionIds(ms) == ids;
        forall a, b | 0 <= a < b < |ids| ensures ids[a] != ids[b] {
          assert ids[a] == initIds[a] && initIds[a] in initIds;
          if b < |initIds| { assert ids[b] == initIds[b]; }
        }
      }
    }
  }

  /** An id is listed exactly when some match belongs to that competition. */
  lemma {:induction false} CompetitionIdsCover(ms: seq<Match>, id: int)
    ensures id in CompetitionIds(ms) <==> exists j :: 0 <= j < |ms| && ms[j].competition.id == id
  {
    if ms != [] {
      var init := ms[..|ms| - 1];
      CompetitionIdsCover(init, id);
      if exists j :: 0 <= j < |init| && init[j].competition.id == id {
        var j :| 0 <= j < |init| && init[j].competition.id == id;
        assert ms[j] == init[j];
      }
      if exists j :: 0 <= j < |ms| && ms[j].competition.id == id {
        var j :| 0 <= j < |ms| && ms[j].competition.id == id;
        if j < |init| { assert init[j] == ms[j]; }
      }
    }
  }

  lemma {:induction false} InCompetitionOfUnseen(ms: seq<Match>, id: int)
    requires id !in CompetitionIds(ms)
    ensures InCompetition(ms, id) == []
  {
    if ms != [] {
      InCompetitionOfUnseen(ms[..|ms| - 1], id);
    }
  }

  /** A match is in its competition's list exactly when it occurs in the input with that id. */
  lemma {:induction false} InCompetitionMembers(ms: seq<Match>, id: int, m: Match)
    ensures m in InCompetition(ms, id) <==> m in ms && m.competition.id == id
  {
    if ms != [] {
      var init := ms[..|ms| - 1];
      InCompetitionMembers(init, id, m);
      assert ms == init + [ms[|ms| - 1]];
    }
  }

  /** `FirstIn` is the earliest match of its competition. */
  lemma {:induction false} FirstInIsFirst(ms: seq<Match>, id: int)
    requires id in CompetitionIds(ms)
    ensures exists i :: (0 <= i < |ms| && ms[i] == FirstIn(ms, id) && ms[i].competition.id == id &&
      forall i' :: 0 <= i' < i ==> ms[i'].competition.id != id)
  {
    var init := ms[..|ms| - 1];
    if id in CompetitionIds(init) {
      FirstInIsFirst(init, id);
      var i :| 0 <= i < |init| && init[i] == FirstIn(init, id) && init[i].competition.id == id &&
        forall i' :: 0 <= i' < i ==> init[i'].competition.id != id;
      assert ms[i] == init[i];
      forall i' | 0 <= i' < i ensures ms[i'].competition.id != id {
        assert ms[i'] == init[i'];
      }
    } else {
      CompetitionIdsCover(init, id);
      var i := |ms| - 1;
      assert ms[i].competition.id == id;
      forall i' | 0 <= i' < i ensures ms[i'].competition.id != id {
        assert ms[i'] == init[i'];
      }
    }
  }

  /** Appending a match of an already-seen competition extends that group only. */
  lemma GroupedAppendSeen(ms: seq<Match>, m: Match, k: nat)
    requires k < |Grouped(ms)| && Grouped(ms)[k].competitionId == m.competition.id
    ensures var gs := Grouped(ms);
      Grouped(ms + [m]) == gs[k := gs[k].(matches := gs[k].matches + [m])]
  {
    var ms' := ms + [m];
    assert ms'[..|ms'| - 1] == ms;
    var ids := CompetitionIds(ms);
    CompetitionIdsDistinct(ms);
    assert CompetitionIds(ms') == ids;
    var gs := Grouped(ms);
    var gs' := Grouped(ms');
    forall i | 0 <= i < |ids|
      ensures gs'[i] == (gs[k := gs[k].(matches := gs[k].matches + [m])])[i]
    {
      assert FirstIn(ms', ids[i]) == FirstIn(ms, ids[i]);
      if i != k { assert ids[i] != ids[k]; }
    }
  }

  /** Appending the first match of a new competition adds one group at the end. */
  lemma GroupedAppendUnseen(ms: seq<Match>, m: Match)
    requires forall k :: 0 <= k < |Grouped(ms)| ==> Grouped(ms)[k].competitionId != m.competition.id
    ensures Grouped(ms + [m]) == Grouped(ms) + [NewGroup(m, [m])]
  {
    var ms' := ms + [m];
    assert ms'[..|ms'| - 1] == ms;
    var ids := CompetitionIds(ms);
    var id := m.competition.id;
    forall k | 0 <= k < |ids| ensures ids[k] != id {
      assert Grouped(ms)[k].competitionId == ids[k];
    }
    assert CompetitionIds(ms') == ids + [id];
    InCompetitionOfUnseen(ms, id);
    var gs := Grouped(ms);
    var gs' := Grouped(ms');
    forall i | 0 <= i < |ids| + 1
      ensures gs'[i] == (gs + [NewGroup(m, [m])])[i]
    {
      if i < |ids| {
        assert FirstIn(ms', ids[i]) == FirstIn(ms, ids[i]);
      }
    }
  }

  // ---------------------------------------------------------------------------
  // The loop

  /** The `useMemo` body: one pass over the matches with a map from id to group position. */
  method GroupByCompetition(matches: seq<Match>) returns (groups: seq<CompetitionGroup>)
    ensures groups == Grouped(matches)
  {
    var index: map<int, nat> := map[];
    groups := [];
    for i := 0 to |matches|
      invariant groups == Grouped(matches[..i])
      invariant forall id :: id in index ==> index[id] < |groups| && groups[index[id]].competitionId == id
      invariant forall k :: 0 <= k < |groups| ==> groups[k].competitionId in index
    {
      var m := matches[i];
      var competitionId := m.competition.id;
      assert matches[..i + 1] == matches[..i] + [m];
      ghost var before := groups;
      if competitionId !in index {
        GroupedAppendUnseen(matches[..i], m);
        index := index[competitionId := |groups|];
        groups := groups + [NewGroup(m, [])];
      } else {
        GroupedAppendSeen(matches[..i], m, index[competitionId]);
      }
      var k := index[competitionId];
      groups := groups[k := groups[k].(matches := groups[k].matches + [m])];
    }
    assert matches[..|matches|] == matches;
  }

  // ---------------------------------------------------------------------------
  // What the grouping promises

  /** Group competition ids are pairwise distinct. */
  lemma GroupIdsDistinct(ms: seq<Match>)
    ensures var gs := Grouped(ms);
      forall a, b :: 0 <= a < b < |gs| ==> gs[a].competitionId != gs[b].competitionId
  {
    CompetitionIdsDistinct(ms);
    var gs := Grouped(ms);
    var ids := CompetitionIds(ms);
    forall a, b | 0 <= a < b < |gs| ensures gs[a].competitionId != gs[b].competitionId {
      assert gs[a].competitionId == ids[a] && gs[b].competitionId == ids[b];
    }
  }

  /**
   * Every input match lies in the group of its own competition and in no other;
   * each group holds exactly its competition's matches, in input order.
   */
  lemma EveryMatchInItsGroup(ms: seq<Match>, j: nat)
    requires j < |ms|
    ensures var gs := Grouped(ms);
      (exists k :: 0 <= k < |gs| && gs[k].competitionId == ms[j].competition.id) &&
      (forall k :: 0 <= k < |gs| ==> (ms[j] in gs[k].matches <==> gs[k].competitionId == ms[j].competition.id)) &&
      (forall k :: 0 <= k < |gs| ==> gs[k].matches == InCompetition(ms, gs[k].competitionId))
  {
    var gs := Grouped(ms);
    var ids := CompetitionIds(ms);
    CompetitionIdsCover(ms, ms[j].competition.id);
    var k0 :| 0 <= k0 < |ids| && ids[k0] == ms[j].competition.id;
    assert gs[k0].competitionId == ms[j].competition.id;
    forall k | 0 <= k < |gs|
      ensures ms[j] in gs[k].matches <==> gs[k].competitionId == ms[j].competition.id
    {
      InCompetitionMembers(ms, ids[k], ms[j]);
    }
  }

  /** Groups appear in the order their competition is first seen. */
  lemma {:induction false} GroupsInFirstSeenOrder(ms: seq<Match>, a: nat, b: nat, j: nat)
    requires a < b < |CompetitionIds(ms)| && j < |ms|
    requires ms[j].competition.id == CompetitionIds(ms)[b]
    ensures exists i :: 0 <= i < j && ms[i].competition.id == CompetitionIds(ms)[a]
  {
    var init := ms[..|ms| - 1];
    var ids := CompetitionIds(ms);
    var initIds := CompetitionIds(init);
    var id := ms[|ms| - 1].competition.id;
    CompetitionIdsDistinct(ms);
    if j < |init| {
      assert ms[j] == init[j];
      CompetitionIdsCover(init, ids[b]);
      assert ids[b] in initIds;
      if id !in initIds {
        assert ids == initIds + [id];
        assert ids[|initIds|] == id;
      }
      assert initIds[a] == ids[a] && initIds[b] == ids[b];
      GroupsInFirstSeenOrder(init, a, b, j);
      var i :| 0 <= i < j && init[i].competition.id == initIds[a];
      assert ms[i] == init[i];
    } else if id in initIds {
      assert ids == initIds;
      CompetitionIdsCover(init, id);
      var j' :| 0 <= j' < |init| && init[j'].competition.id == id;
      assert ms[j'] == init[j'];
      GroupsInFirstSeenOrder(ms, a, b, j');
    } else {
      assert ids == initIds + [id];
      assert forall c :: 0 <= c < |initIds| ==> ids[c] in initIds;
      assert ids[a] == initIds[a];
      CompetitionIdsCover(init, ids[a]);
      var i :| 0 <= i < |init| && init[i].competition.id == ids[a];
      assert ms[i] == init[i];
    }
  }

  /** A group's name, emblem, area name and flag come from the first match of its competition. */
  lemma GroupHeaderFromFirstMatch(ms: seq<Match>, k: nat)
    requires k < |Grouped(ms)|
    ensures var g := Grouped(ms)[k];
      exists i :: 0 <= i < |ms| && ms[i].competition.id == g.competitionId &&
        (forall i' :: 0 <= i' < i ==> ms[i'].competition.id != g.competitionId) &&
        g.competitionName == ms[i].competition.name && g.competitionEmblem == ms[i].competition.emblem &&
        g.areaName == ms[i].area.name && g.areaFlag == ms[i].area.flag
  {
    FirstInIsFirst(ms, CompetitionIds(ms)[k]);
  }

  lemma TotalMatchesAppend(gs: seq<CompetitionGroup>, g: CompetitionGroup)
    ensures TotalMatches(gs + [g]) == TotalMatches(gs) + |g.matches|
  {
    assert (gs + [g])[..|gs|] == gs;
  }

  lemma {:induction false} TotalMatchesGrowOne(gs: seq<CompetitionGroup>, k: nat, m: Match)
    requires k < |gs|
    ensures TotalMatches(gs[k := gs[k].(matches := gs[k].matches + [m])]) == TotalMatches(gs) + 1
  {
    var gs' := gs[k := gs[k].(matches := gs[k].matches + [m])];
    if k < |gs| - 1 {
      assert gs'[..|gs'| - 1] == gs[..|gs| - 1][k := gs[k].(matches := gs[k].matches + [m])];
      TotalMatchesGrowOne(gs[..|gs| - 1], k, m);
    } else {
      assert gs'[..|gs'| - 1] == gs[..|gs| - 1];
    }
  }

  /** No match is lost or duplicated: the group sizes add up to the input length. */
  lemma {:induction false} GroupedCountsEveryMatch(ms: seq<Match>)
    ensures TotalMatches(Grouped(ms)) == |ms|
    ensures ms == [] <==> Grouped(ms) == []
  {
    if ms != [] {
      var init := ms[..|ms| - 1];
      var m := ms[|ms| - 1];
      assert ms == init + [m];
      GroupedCountsEveryMatch(init);
      var gs := Grouped(init);
      if k :| 0 <= k < |gs| && gs[k].competitionId == m.competition.id {
        GroupedAppendSeen(init, m, k);
        TotalMatchesGrowOne(gs, k, m);
      } else {
        GroupedAppendUnseen(init, m);
        TotalMatchesAppend(gs, NewGroup(m, [m]));
      }
    }
  }
}
