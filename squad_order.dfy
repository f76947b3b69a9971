/**
 * Ordering of a team's squad on the match page
 * (`positionOrder` and `sortSquad` in frontend/src/components/MatchDetail.tsx).
 *
 * The source sorts a copy of the roster with a comparator: position rank first,
 * then name. `localeCompare` is abstracted to the lexicographic order of
 * character codes (LexCompare).
 */
module SquadOrder {
  import opened Wrappers
  import opened MatchTypes

  /** `Number.MAX_SAFE_INTEGER`, the rank of every position missing from the rank table. */
  const MAX_SAFE_INTEGER: nat := 9007199254740991

  /** The four labels present in the rank table. */
  predicate KnownPosition(position: string) {
    position == "Goalkeeper" || position == "Defender" || position == "Midfielder" || position == "Forward"
  }

  /** `positionOrder[position] ?? Number.MAX_SAFE_INTEGER`. */
  function PositionRank(position: string): (r: nat)
    ensures KnownPosition(position) <==> r <= 3
    ensures !KnownPosition(position) ==> r == MAX_SAFE_INTEGER
    ensures position == "Goalkeeper" ==> r == 0
    ensures position == "Defender" ==> r == 1
    ensures position == "Midfielder" ==> r == 2
    ensures position == "Forward" ==> r == 3
  {
    if position == "Goalkeeper" then 0
    else if position == "Defender" then 1
    else if position == "Midfielder" then 2
    else if position == "Forward" then 3
    else MAX_SAFE_INTEGER
  }

  /** Three-way lexicographic comparison of two names: negative, zero or positive. */
  function LexCompare(a: string, b: string): (r: int)
    ensures -1 <= r <= 1
  {
    if a == [] then (if b == [] then 0 else -1)
    else if b == [] then 1
    else if a[0] < b[0] then -1
    else if a[0] > b[0] then 1
    else LexCompare(a[1..], b[1..])
  }

  lemma {:induction false} LexCompareFlip(a: string, b: string)
    ensures LexCompare(b, a) == -LexCompare(a, b)
  {
    if a != [] && b != [] && a[0] == b[0] {
      LexCompareFlip(a[1..], b[1..]);
    }
  }

  lemma {:induction false} LexCompareZero(a: string, b: string)
    ensures LexCompare(a, b) == 0 <==> a == b
  {
    if a != [] && b != [] && a[0] == b[0] {
      LexCompareZero(a[1..], b[1..]);
      if a[1..] == b[1..] {
        assert a == [a[0]] + a[1..] && b == [b[0]] + b[1..];
      }
    }
  }

  lemma {:induction false} LexCompareTransitive(a: string, b: string, c: string)
    requires LexCompare(a, b) <= 0 && LexCompare(b, c) <= 0
    ensures LexCompare(a, c) <= 0
  {
    if a != [] && b != [] && c != [] && a[0] == b[0] && b[0] == c[0] {
      LexCompareTransitive(a[1..], b[1..], c[1..]);
    }
  }

  /** The comparator passed to `sort`. */
  function Compare(first: SquadMember, second: SquadMember): (r: int)
    ensures PositionRank(first.position) < PositionRank(second.position) ==> r < 0
    ensures PositionRank(first.position) > PositionRank(second.position) ==> r > 0
    ensures PositionRank(first.position) == PositionRank(second.position) ==> r == LexCompare(first.name, second.name)
  {
    var firstOrder := PositionRank(first.position);
    var secondOrder := PositionRank(second.position);
    if firstOrder != secondOrder then firstOrder - secondOrder
    else LexCompare(first.name, second.name)
  }

  /** The comparator orders by the key (rank, name), lexicographically. */
  lemma CompareMeaning(p: SquadMember, q: SquadMember)
    ensures Compare(p, q) < 0 <==>
      PositionRank(p.position) < PositionRank(q.position) ||
      (PositionRank(p.position) == PositionRank(q.position) && LexCompare(p.name, q.name) < 0)
    ensures Compare(p, q) == 0 <==> PositionRank(p.position) == PositionRank(q.position) && p.name == q.name
  {
    LexCompareZero(p.name, q.name);
  }

  lemma CompareFlip(p: SquadMember, q: SquadMember)
    ensures Compare(q, p) == -Compare(p, q)
  {
    LexCompareFlip(p.name, q.name);
  }

  lemma CompareTransitive(p: SquadMember, q: SquadMember, s: SquadMember)
    requires Compare(p, q) <= 0 && Compare(q, s) <= 0
    ensures Compare(p, s) <= 0
  {
    if PositionRank(p.position) == PositionRank(q.position) == PositionRank(s.position) {
      LexCompareTransitive(p.name, q.name, s.name);
    }
  }

  /** Every earlier player compares at most equal to every later one. */
  ghost predicate Sorted(s: seq<SquadMember>) {
    forall i, j :: 0 <= i < j < |s| ==> Compare(s[i], s[j]) <= 0
  }

  /**
   * Inserts `p` after every element that does not compare greater than it, so
   * that equal players keep their input order, as the stable `Array.prototype.sort` does.
   */
  function Insert(p: SquadMember, s: seq<SquadMember>): (r: seq<SquadMember>)
    ensures multiset(r) == multiset(s) + multiset{p}
    ensures |r| == |s| + 1
  {
    if s == [] then [p]
    else if Compare(p, s[0]) < 0 then [p] + s
    else
      assert s == [s[0]] + s[1..];
      [s[0]] + Insert(p, s[1..])
  }

  /** Prepending a player that compares at most equal to every element keeps a roster sorted. */
  lemma SortedPrepend(x: SquadMember, s: seq<SquadMember>)
    requires Sorted(s)
    requires forall j :: 0 <= j < |s| ==> Compare(x, s[j]) <= 0
    ensures Sorted([x] + s)
  {
    var r := [x] + s;
    forall i, j | 0 <= i < j < |r| ensures Compare(r[i], r[j]) <= 0 {
      assert r[j] == s[j - 1];
      if i > 0 { assert r[i] == s[i - 1]; }
    }
  }

  lemma {:induction false} InsertSorted(p: SquadMember, s: seq<SquadMember>)
    requires Sorted(s)
    ensures Sorted(Insert(p, s))
  {
    if s == [] {
    } else if Compare(p, s[0]) < 0 {
      forall j | 0 <= j < |s| ensures Compare(p, s[j]) <= 0 {
        if j > 0 { CompareTransitive(p, s[0], s[j]); }
      }
      SortedPrepend(p, s);
    } else {
      var tail := s[1..];
      var t := Insert(p, tail);
      InsertSorted(p, tail);
      CompareFlip(p, s[0]);
      forall j | 0 <= j < |t| ensures Compare(s[0], t[j]) <= 0 {
        assert t[j] in multiset(t);
        if t[j] != p {
          assert t[j] in multiset(tail);
          var k :| 0 <= k < |tail| && tail[k] == t[j];
          assert s[k + 1] == t[j];
        }
      }
      SortedPrepend(s[0], t);
    }
  }

  /**
   * `sortSquad`: the roster in comparator order. Sequences are values, so the
   * caller's roster is left as it was, as the source guarantees by sorting a copy.
   */
  function SortSquad(players: seq<SquadMember>): (r: seq<SquadMember>)
    ensures |r| == |players|
    ensures multiset(r) == multiset(players)
    ensures Sorted(r)
  {
    if players == [] then []
    else
      var init := players[..|players| - 1];
      var last := players[|players| - 1];
      assert players == init + [last];
      var sortedInit := SortSquad(init);
      InsertSorted(last, sortedInit);
      Insert(last, sortedInit)
  }

  // ---------------------------------------------------------------------------
  // Stability: players equal under the comparator keep their input order

  /** The player's sort key is (rank, name). */
  predicate HasKey(x: SquadMember, rank: nat, name: string) {
    PositionRank(x.position) == rank && x.name == name
  }

  /** The players with one sort key, in the order they occur. */
  function WithKey(s: seq<SquadMember>, rank: nat, name: string): seq<SquadMember> {
    if s == [] then []
    else (if HasKey(s[0], rank, name) then [s[0]] else []) + WithKey(s[1..], rank, name)
  }

  lemma {:induction false} WithKeyConcat(a: seq<SquadMember>, b: seq<SquadMember>, rank: nat, name: string)
    ensures WithKey(a + b, rank, name) == WithKey(a, rank, name) + WithKey(b, rank, name)
  {
    if a != [] {
      assert (a + b)[0] == a[0] && (a + b)[1..] == a[1..] + b;
      WithKeyConcat(a[1..], b, rank, name);
      var head := if HasKey(a[0], rank, name) then [a[0]] else [];
      assert head + (WithKey(a[1..], rank, name) + WithKey(b, rank, name)) ==
        (head + WithKey(a[1..], rank, name)) + WithKey(b, rank, name);
    } else {
      assert a + b == b;
    }
  }

  lemma CompareStrictTransitive(p: SquadMember, q: SquadMember, s: SquadMember)
    requires Compare(p, q) < 0 && Compare(q, s) <= 0
    ensures Compare(p, s) < 0
  {
    CompareTransitive(p, q, s);
    CompareMeaning(p, s);
    CompareFlip(p, q);
  }

  /** In a sorted roster that starts above `p`, no player shares `p`'s key. */
  lemma {:induction false} NoKeyAbove(p: SquadMember, s: seq<SquadMember>)
    requires Sorted(s) && s != [] && Compare(p, s[0]) < 0
    ensures WithKey(s, PositionRank(p.position), p.name) == []
  {
    CompareMeaning(p, s[0]);
    if |s| > 1 {
      CompareStrictTransitive(p, s[0], s[1]);
      NoKeyAbove(p, s[1..]);
    }
  }

  /** Insertion puts `p` after every player with its key. */
  lemma {:induction false} InsertStable(p: SquadMember, s: seq<SquadMember>, rank: nat, name: string)
    requires Sorted(s)
    ensures WithKey(Insert(p, s), rank, name) ==
      WithKey(s, rank, name) + (if HasKey(p, rank, name) then [p] else [])
  {
    var mine := if HasKey(p, rank, name) then [p] else [];
    if s == [] {
      assert WithKey([p], rank, name) == mine + WithKey([], rank, name);
    } else if Compare(p, s[0]) < 0 {
      var r := [p] + s;
      assert Insert(p, s) == r;
      assert r[0] == p && r[1..] == s;
      assert WithKey(r, rank, name) == mine + WithKey(s, rank, name);
      if HasKey(p, rank, name) { NoKeyAbove(p, s); }
    } else {
      var t := Insert(p, s[1..]);
      var r := [s[0]] + t;
      assert Insert(p, s) == r;
      assert r[0] == s[0] && r[1..] == t;
      var head := if HasKey(s[0], rank, name) then [s[0]] else [];
      assert WithKey(r, rank, name) == head + WithKey(t, rank, name);
      assert WithKey(s, rank, name) == head + WithKey(s[1..], rank, name);
      InsertStable(p, s[1..], rank, name);
    }
  }

  /**
   * `sortSquad` is stable: for every key, the players with that key appear in
   * the result in the same order as in the input.
   */
  lemma {:induction false} SortSquadStable(players: seq<SquadMember>, rank: nat, name: string)
    ensures WithKey(SortSquad(players), rank, name) == WithKey(players, rank, name)
  {
    if players != [] {
      var init := players[..|players| - 1];
      var last := players[|players| - 1];
      assert players == init + [last];
      SortSquadStable(init, rank, name);
      InsertStable(last, SortSquad(init), rank, name);
      WithKeyConcat(init, [last], rank, name);
    }
  }

  /** What the sorted order means for the displayed roster. */
  lemma SortSquadOrder(players: seq<SquadMember>)
    ensures var r := SortSquad(players);
      (forall i, j :: 0 <= i < j < |r| ==> PositionRank(r[i].position) <= PositionRank(r[j].position)) &&
      (forall i, j :: 0 <= i < j < |r| && PositionRank(r[i].position) == PositionRank(r[j].position) ==>
         LexCompare(r[i].name, r[j].name) <= 0) &&
      (forall i, j :: 0 <= i < |r| && 0 <= j < |r| && KnownPosition(r[i].position) && !KnownPosition(r[j].position) ==> i < j)
  {
  }

  /** Each player keeps its number of occurrences: nobody is dropped or duplicated. */
  lemma SortSquadKeepsPlayers(players: seq<SquadMember>, p: SquadMember)
    ensures p in SortSquad(players) <==> p in players
  {
    var r := SortSquad(players);
    assert p in r <==> p in multiset(r);
    assert p in players <==> p in multiset(players);
  }

  /** `sortSquad(match?.homeTeam.squad ?? [])` and its away counterpart. */
  function DisplayedSquad(detail: Option<MatchDetail>, home: bool): (r: seq<SquadMember>)
    ensures detail.None? ==> r == []
    ensures detail.Some? ==> multiset(r) == multiset(if home then detail.value.homeTeam.squad else detail.value.awayTeam.squad)
    ensures Sorted(r)
  {
    SortSquad(match detail
      case None => []
      case Some(d) => if home then d.homeTeam.squad else d.awayTeam.squad)
  }
}
