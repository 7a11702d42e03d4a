/**
 * The member directory (pages/MembersPage.tsx): search and role filters over
 * a copy of the member list, a sort of that copy in one of three orders, and
 * the count of top contributors. `localeCompare` is a parameter: any
 * comparison that orders strings totally and transitively.
 */
module MembersPage {
  import opened Collections
  import opened ForumTypes
  import opened Text

  /** The directory's sort orders. */
  datatype SortType = Reputation | Name | Newest

  /** Reputation above which a member counts as a top contributor. */
  const TopContributorReputation: int := 5000

  /**
   * What Array.prototype.sort needs of `localeCompare` for a defined result:
   * of any two strings one is at most the other, and "at most" is transitive.
   */
  ghost predicate IsStringOrder(localeCompare: (string, string) -> int)
  {
    IsTotal(localeCompare) && IsTransitive(localeCompare)
  }

  /** Of any two strings, one is at most the other. */
  ghost predicate IsTotal(localeCompare: (string, string) -> int)
  {
    forall a, b :: localeCompare(a, b) <= 0 || localeCompare(b, a) <= 0
  }

  /** "At most" is transitive. */
  ghost predicate IsTransitive(localeCompare: (string, string) -> int)
  {
    forall a, b, c :: localeCompare(a, b) <= 0 && localeCompare(b, c) <= 0 ==> localeCompare(a, c) <= 0
  }

  /**
   * The sort's comparator: a negative or zero result lets `a` stay before `b`.
   * Higher reputation first; names ascending and join dates descending under
   * `localeCompare`.
   */
  function Compare(sortBy: SortType, localeCompare: (string, string) -> int, a: User, b: User): (r: int)
    ensures sortBy == Reputation ==> (r <= 0 <==> a.reputation >= b.reputation)
    ensures sortBy == Reputation ==> (r == 0 <==> a.reputation == b.reputation)
    ensures sortBy == Name ==> r == localeCompare(a.name, b.name)
    ensures sortBy == Newest ==> r == localeCompare(b.joinedAt, a.joinedAt)
  {
    match sortBy
    case Reputation => b.reputation - a.reputation
    case Name => localeCompare(a.name, b.name)
    case Newest => localeCompare(b.joinedAt, a.joinedAt)
  }

  /** `a` may precede `b` in the sorted list. */
  predicate InOrder(sortBy: SortType, localeCompare: (string, string) -> int, a: User, b: User)
  {
    Compare(sortBy, localeCompare, a, b) <= 0
  }

  /** Neighbours are in order. */
  predicate AdjacentSorted(s: seq<User>, sortBy: SortType, localeCompare: (string, string) -> int)
  {
    forall i | 0 < i < |s| :: InOrder(sortBy, localeCompare, s[i - 1], s[i])
  }

  /** Every pair is in order. */
  predicate Sorted(s: seq<User>, sortBy: SortType, localeCompare: (string, string) -> int)
  {
    forall i, j | 0 <= i < j < |s| :: InOrder(sortBy, localeCompare, s[i], s[j])
  }

  /** `a` and `b` tie: each may precede the other. */
  predicate Tied(sortBy: SortType, localeCompare: (string, string) -> int, a: User, b: User)
  {
    InOrder(sortBy, localeCompare, a, b) && InOrder(sortBy, localeCompare, b, a)
  }

  /** The test "ties with `x`". */
  function TiesWith(sortBy: SortType, localeCompare: (string, string) -> int, x: User): User -> bool
  {
    (m: User) => Tied(sortBy, localeCompare, x, m)
  }

  /**
   * Stability: `t` lists the members that tie with any given member in the
   * order in which `s` lists them.
   */
  ghost predicate SameTieOrder(s: seq<User>, t: seq<User>, sortBy: SortType, localeCompare: (string, string) -> int)
  {
    forall x: User :: Filter(t, TiesWith(sortBy, localeCompare, x)) == Filter(s, TiesWith(sortBy, localeCompare, x))
  }

  /** The search test: the lower-cased name or username contains the lower-cased query. */
  function MatchesQuery(q: string): User -> bool
  {
    (m: User) => Includes(ToLower(m.name), q) || Includes(ToLower(m.username), q)
  }

  /** The role test: the role contains the selected role. */
  function HasRole(role: string): User -> bool
  {
    (m: User) => Includes(m.role, role)
  }

  /** A member that the directory lists for this query and role. */
  predicate Listed(m: User, searchQuery: string, activeRole: string)
  {
    && (searchQuery == "" || MatchesQuery(ToLower(searchQuery))(m))
    && (activeRole == "All" || HasRole(activeRole)(m))
  }

  /** The two filters of the directory, in the order the page applies them. */
  function Filtered(members: seq<User>, searchQuery: string, activeRole: string): (r: seq<User>)
    ensures forall i | 0 <= i < |r| :: Listed(r[i], searchQuery, activeRole)
    ensures forall m | Listed(m, searchQuery, activeRole) :: multiset(r)[m] == multiset(members)[m]
    ensures forall m | !Listed(m, searchQuery, activeRole) :: multiset(r)[m] == 0
    ensures IsSubsequence(r, members)
  {
    var afterSearch := if searchQuery == "" then members else Filter(members, MatchesQuery(ToLower(searchQuery)));
    IsSubsequenceRefl(members);
    if activeRole == "All" then afterSearch
    else
      var r := Filter(afterSearch, HasRole(activeRole));
      IsSubsequenceTrans(r, afterSearch, members);
      r
  }

  /** With no query and every role, the filters keep every member. */
  lemma FilteredKeepsAll(members: seq<User>)
    ensures multiset(Filtered(members, "", "All")) == multiset(members)
  {
  }

  /** Under a transitive comparison, "may precede" is transitive too. */
  lemma InOrderTransitive(sortBy: SortType, localeCompare: (string, string) -> int, a: User, b: User, c: User)
    requires IsTransitive(localeCompare)
    requires InOrder(sortBy, localeCompare, a, b) && InOrder(sortBy, localeCompare, b, c)
    ensures InOrder(sortBy, localeCompare, a, c)
  {
  }

  /** Neighbour order extends to every pair when the comparison is transitive. */
  lemma {:induction false} AdjacentSortedIsSorted(s: seq<User>, sortBy: SortType, localeCompare: (string, string) -> int)
    requires IsTransitive(localeCompare)
    requires AdjacentSorted(s, sortBy, localeCompare)
    ensures Sorted(s, sortBy, localeCompare)
    decreases |s|
  {
    if |s| > 1 {
      var init := s[..|s| - 1];
      AdjacentSortedIsSorted(init, sortBy, localeCompare);
      forall i | 0 <= i < |s| - 1
        ensures InOrder(sortBy, localeCompare, s[i], s[|s| - 1])
      {
        if i < |s| - 2 {
          assert InOrder(sortBy, localeCompare, init[i], init[|s| - 2]);
          InOrderTransitive(sortBy, localeCompare, s[i], s[|s| - 2], s[|s| - 1]);
        }
      }
    }
  }

  /** Of two members, one may precede the other. */
  lemma InOrderTotal(sortBy: SortType, localeCompare: (string, string) -> int, a: User, b: User)
    requires IsTotal(localeCompare)
    ensures InOrder(sortBy, localeCompare, a, b) || InOrder(sortBy, localeCompare, b, a)
  {
  }

  /**
   * The state of an insertion pass that has carried the element from `i`
   * down to `j`: the part before `j` and the part from `j` to `i` are each in
   * order, and the neighbours around `j` would still be in order without it.
   */
  predicate Inserting(s: seq<User>, j: nat, i: nat, sortBy: SortType, localeCompare: (string, string) -> int)
    requires j <= i < |s|
  {
    && AdjacentSorted(s[..j], sortBy, localeCompare)
    && AdjacentSorted(s[j..i + 1], sortBy, localeCompare)
    && (0 < j < i ==> InOrder(sortBy, localeCompare, s[j - 1], s[j + 1]))
  }

  /** `s` with the elements at `j - 1` and `j` exchanged. */
  function SwapDown(s: seq<User>, j: nat): (t: seq<User>)
    requires 0 < j < |s|
    ensures |t| == |s| && multiset(t) == multiset(s)
    ensures t[j - 1] == s[j] && t[j] == s[j - 1]
    ensures forall k | 0 <= k < |s| && k != j - 1 && k != j :: t[k] == s[k]
  {
    s[j - 1 := s[j]][j := s[j - 1]]
  }

  /** Filtering a pair keeps each of its two values that passes, in order. */
  lemma FilterPair(p: User, q: User, test: User -> bool)
    ensures Filter([p, q], test) == (if test(p) then [p] else []) + (if test(q) then [q] else [])
  {
    assert [p, q][1..] == [q];
    assert [q][1..] == [];
  }

  /**
   * Exchanging a neighbouring pair that is out of order keeps the order
   * within every tie class: under a transitive comparison the two members
   * of such a pair never tie with the same member.
   */
  lemma SwapDownKeepsTieOrder(s: seq<User>, j: nat, sortBy: SortType, localeCompare: (string, string) -> int)
    requires IsTransitive(localeCompare)
    requires 0 < j < |s|
    requires !InOrder(sortBy, localeCompare, s[j - 1], s[j])
    ensures SameTieOrder(s, SwapDown(s, j), sortBy, localeCompare)
  {
    var t := SwapDown(s, j);
    var front, back := s[..j - 1], s[j + 1..];
    var p, q := s[j - 1], s[j];
    assert s == (front + [p, q]) + back;
    assert t == (front + [q, p]) + back;
    forall x: User
      ensures Filter(t, TiesWith(sortBy, localeCompare, x)) == Filter(s, TiesWith(sortBy, localeCompare, x))
    {
      var test := TiesWith(sortBy, localeCompare, x);
      if test(p) && test(q) {
        InOrderTransitive(sortBy, localeCompare, p, x, q);
        assert false;
      }
      FilterAppend(front + [p, q], back, test);
      FilterAppend(front, [p, q], test);
      FilterAppend(front + [q, p], back, test);
      FilterAppend(front, [q, p], test);
      FilterPair(p, q, test);
      FilterPair(q, p, test);
    }
  }

  /** Keeping the tie order is transitive. */
  lemma SameTieOrderTrans(s: seq<User>, t: seq<User>, u: seq<User>, sortBy: SortType, localeCompare: (string, string) -> int)
    requires SameTieOrder(s, t, sortBy, localeCompare) && SameTieOrder(t, u, sortBy, localeCompare)
    ensures SameTieOrder(s, u, sortBy, localeCompare)
  {
  }

  /** Exchanging an out-of-order pair moves the insertion one place down. */
  lemma SwapDownKeepsInserting(s: seq<User>, j: nat, i: nat, sortBy: SortType, localeCompare: (string, string) -> int)
    requires IsTotal(localeCompare)
    requires 0 < j <= i < |s|
    requires Inserting(s, j, i, sortBy, localeCompare)
    requires !InOrder(sortBy, localeCompare, s[j - 1], s[j])
    ensures Inserting(SwapDown(s, j), j - 1, i, sortBy, localeCompare)
  {
    var t := SwapDown(s, j);
    InOrderTotal(sortBy, localeCompare, s[j - 1], s[j]);
    assert t[..j - 1] == s[..j - 1];
    assert AdjacentSorted(s[..j - 1], sortBy, localeCompare) by {
      forall k | 0 < k < j - 1 ensures InOrder(sortBy, localeCompare, s[k - 1], s[k]) {
        assert s[..j][k - 1] == s[k - 1] && s[..j][k] == s[k];
      }
    }
    var u := t[j - 1..i + 1];
    forall k | 0 < k < |u|
      ensures InOrder(sortBy, localeCompare, u[k - 1], u[k])
    {
      if k >= 3 {
        assert s[j..i + 1][k - 2] == s[j + k - 2] && s[j..i + 1][k - 1] == s[j + k - 1];
      } else if k == 2 {
        assert s[j..i + 1][1] == s[j + 1];
      }
    }
    if 0 < j - 1 {
      assert s[..j][j - 2] == s[j - 2] && s[..j][j - 1] == s[j - 1];
    }
  }

  /**
   * One pass of the insertion sort: move `a[i]` down past its larger
   * neighbours, so that the first `i + 1` elements have neighbours in order.
   */
  method InsertAt(a: array<User>, i: nat, sortBy: SortType, localeCompare: (string, string) -> int)
    requires IsStringOrder(localeCompare)
    requires i < a.Length
    requires AdjacentSorted(a[..i], sortBy, localeCompare)
    modifies a
    ensures multiset(a[..]) == old(multiset(a[..]))
    ensures SameTieOrder(old(a[..]), a[..], sortBy, localeCompare)
    ensures AdjacentSorted(a[..i + 1], sortBy, localeCompare)
    ensures a[i + 1..] == old(a[i + 1..])
  {
    var j := i;
    while j > 0 && !InOrder(sortBy, localeCompare, a[j - 1], a[j])
      invariant 0 <= j <= i
      invariant multiset(a[..]) == old(multiset(a[..]))
      invariant SameTieOrder(old(a[..]), a[..], sortBy, localeCompare)
      invariant Inserting(a[..], j, i, sortBy, localeCompare)
      invariant a[i + 1..] == old(a[i + 1..])
    {
      ghost var s := a[..];
      SwapDownKeepsInserting(s, j, i, sortBy, localeCompare);
      SwapDownKeepsTieOrder(s, j, sortBy, localeCompare);
      SameTieOrderTrans(old(a[..]), s, SwapDown(s, j), sortBy, localeCompare);
      a[j - 1], a[j] := a[j], a[j - 1];
      assert a[..] == SwapDown(s, j);
      j := j - 1;
    }
    InsertingDone(a[..], j, i, sortBy, localeCompare);
  }

  /** A pass stops where the carried element is in order with its left neighbour, or at the front. */
  lemma InsertingDone(s: seq<User>, j: nat, i: nat, sortBy: SortType, localeCompare: (string, string) -> int)
    requires j <= i < |s|
    requires Inserting(s, j, i, sortBy, localeCompare)
    requires j == 0 || InOrder(sortBy, localeCompare, s[j - 1], s[j])
    ensures AdjacentSorted(s[..i + 1], sortBy, localeCompare)
  {
    var u := s[..i + 1];
    forall k | 0 < k < |u| ensures InOrder(sortBy, localeCompare, u[k - 1], u[k]) {
      if k < j {
        assert s[..j][k - 1] == s[k - 1] && s[..j][k] == s[k];
      } else if k > j {
        assert s[j..i + 1][k - 1 - j] == s[k - 1] && s[j..i + 1][k - j] == s[k];
      }
    }
  }

  /**
   * `result.sort(...)`: an insertion sort, standing for the engine's stable
   * sort, in place on the array. The result is a permutation with
   * neighbours in order, and members that tie keep their relative order.
   */
  method SortMembers(a: array<User>, sortBy: SortType, localeCompare: (string, string) -> int)
    requires IsStringOrder(localeCompare)
    modifies a
    ensures multiset(a[..]) == old(multiset(a[..]))
    ensures SameTieOrder(old(a[..]), a[..], sortBy, localeCompare)
    ensures AdjacentSorted(a[..], sortBy, localeCompare)
  {
    var i := 0;
    while i < a.Length
      invariant 0 <= i <= a.Length
      invariant multiset(a[..]) == old(multiset(a[..]))
      invariant SameTieOrder(old(a[..]), a[..], sortBy, localeCompare)
      invariant AdjacentSorted(a[..i], sortBy, localeCompare)
    {
      ghost var before := a[..];
      InsertAt(a, i, sortBy, localeCompare);
      SameTieOrderTrans(old(a[..]), before, a[..], sortBy, localeCompare);
      i := i + 1;
    }
    assert a[..a.Length] == a[..];
  }

  /** What pairwise order means for each of the three sort orders. */
  lemma SortedMeaning(s: seq<User>, sortBy: SortType, localeCompare: (string, string) -> int)
    requires Sorted(s, sortBy, localeCompare)
    ensures sortBy == Reputation ==>
              forall i, j | 0 <= i < j < |s| :: s[i].reputation >= s[j].reputation
    ensures sortBy == Name ==>
              forall i, j | 0 <= i < j < |s| :: localeCompare(s[i].name, s[j].name) <= 0
    ensures sortBy == Newest ==>
              forall i, j | 0 <= i < j < |s| :: localeCompare(s[j].joinedAt, s[i].joinedAt) <= 0
  {
  }

  /** A permutation of the filtered list lists exactly the filtered members. */
  lemma PermutationOfFiltered(s: seq<User>, members: seq<User>, searchQuery: string, activeRole: string)
    requires multiset(s) == multiset(Filtered(members, searchQuery, activeRole))
    ensures forall i | 0 <= i < |s| :: Listed(s[i], searchQuery, activeRole)
    ensures forall m | Listed(m, searchQuery, activeRole) :: multiset(s)[m] == multiset(members)[m]
  {
    forall i | 0 <= i < |s| ensures Listed(s[i], searchQuery, activeRole) {
      assert s[i] in multiset(s);
    }
  }

  /**
   * `filteredAndSortedMembers`: the listed members of a copy of `members`,
   * sorted by the chosen order. The member list itself is a value and is
   * not reordered.
   */
  method FilteredAndSortedMembers(members: seq<User>, searchQuery: string, activeRole: string,
                                  sortBy: SortType, localeCompare: (string, string) -> int)
    returns (result: seq<User>)
    requires IsStringOrder(localeCompare)
    ensures multiset(result) == multiset(Filtered(members, searchQuery, activeRole))
    ensures forall i | 0 <= i < |result| :: Listed(result[i], searchQuery, activeRole)
    ensures forall m | Listed(m, searchQuery, activeRole) :: multiset(result)[m] == multiset(members)[m]
    ensures sortBy == Reputation ==>
              forall i, j | 0 <= i < j < |result| :: result[i].reputation >= result[j].reputation
    ensures sortBy == Name ==>
              forall i, j | 0 <= i < j < |result| :: localeCompare(result[i].name, result[j].name) <= 0
    ensures sortBy == Newest ==>
              forall i, j | 0 <= i < j < |result| :: localeCompare(result[j].joinedAt, result[i].joinedAt) <= 0
    ensures SameTieOrder(Filtered(members, searchQuery, activeRole), result, sortBy, localeCompare)
  {
    var filtered := members;
    if searchQuery != "" {
      var q := ToLower(searchQuery);
      filtered := Filter(filtered, MatchesQuery(q));
    }
    if activeRole != "All" {
      filtered := Filter(filtered, HasRole(activeRole));
    }
    assert filtered == Filtered(members, searchQuery, activeRole);
    var a := new User[|filtered|](i requires 0 <= i < |filtered| => filtered[i]);
    assert a[..] == filtered;
    SortMembers(a, sortBy, localeCompare);
    result := a[..];
    AdjacentSortedIsSorted(result, sortBy, localeCompare);
    SortedMeaning(result, sortBy, localeCompare);
    PermutationOfFiltered(result, members, searchQuery, activeRole);
  }

  /** The top-contributor test. */
  function IsTopContributor(): User -> bool
  {
    (m: User) => m.reputation > TopContributorReputation
  }

  /** `topContributorsCount`: members whose reputation is above 5000. */
  function TopContributorsCount(members: seq<User>): (n: nat)
    ensures n <= |members|
    ensures n == 0 <==> forall i | 0 <= i < |members| :: members[i].reputation <= TopContributorReputation
  {
    Count(members, IsTopContributor())
  }

  /** The count of top contributors adds up over two halves of the member list. */
  lemma TopContributorsCountAppend(a: seq<User>, b: seq<User>)
    ensures TopContributorsCount(a + b) == TopContributorsCount(a) + TopContributorsCount(b)
  {
    CountAppend(a, b, IsTopContributor());
  }
}
