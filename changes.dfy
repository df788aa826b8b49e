/**
 * The record of what a move touched, used to restrict the energy
 * evaluation and the later state synchronisation to that region.
 */
module Changes {
  import Base

  /**
   * One touched group: its index, the touched slots relative to the group's
   * begin, and flags: `all` (every slot touched), `internal`, `dNatomic`
   * (atoms of an atomic group were (de)activated) and `dNswap` (a particle
   * changed species in place).
   */
  datatype GroupChange = GroupChange(index: nat, atoms: seq<nat>, all: bool, internal: bool,
                                     dNatomic: bool, dNswap: bool)

  /** A change: volume changed, everything changed, particle number changed, touched groups. */
  datatype Change = Change(dV: bool, all: bool, dN: bool, groups: seq<GroupChange>)

  const NoChange := Change(false, false, false, [])

  /** A record with none of the flags set, as `Change::data` is default-constructed. */
  function Record(index: nat, atoms: seq<nat>): GroupChange
  {
    GroupChange(index, atoms, false, false, false, false)
  }

  predicate SortedBy<T>(s: seq<T>, key: T -> int)
  {
    forall i, j :: 0 <= i < j < |s| ==> key(s[i]) <= key(s[j])
  }

  function Insert<T>(x: T, s: seq<T>, key: T -> int): (r: seq<T>)
    requires SortedBy(s, key)
    ensures SortedBy(r, key)
    ensures multiset(r) == multiset(s) + multiset{x}
    ensures |r| == |s| + 1
  {
    if s == [] then [x]
    else if key(x) <= key(s[0]) then [x] + s
    else
      var t := Insert(x, s[1..], key);
      InsertCons(x, s, t, key);
      [s[0]] + t
  }

  /** Putting back the head s[0], smaller than x, in front of x inserted into the rest keeps the order. */
  lemma InsertCons<T>(x: T, s: seq<T>, t: seq<T>, key: T -> int)
    requires s != [] && SortedBy(s, key) && key(s[0]) < key(x)
    requires SortedBy(t, key) && multiset(t) == multiset(s[1..]) + multiset{x}
    ensures SortedBy([s[0]] + t, key) && multiset([s[0]] + t) == multiset(s) + multiset{x}
  {
    assert s == [s[0]] + s[1..];
    forall k | 0 <= k < |t| ensures key(s[0]) <= key(t[k]) {
      assert t[k] in multiset(t);
      if t[k] != x {
        assert t[k] in multiset(s[1..]);
        var j :| 0 <= j < |s[1..]| && s[1..][j] == t[k];
        assert s[j + 1] == t[k];
      }
    }
  }

  /**
   * `std::sort` with a key: the result is ordered by key and is a
   * permutation of the input.
   */
  function SortBy<T>(s: seq<T>, key: T -> int): (r: seq<T>)
    ensures SortedBy(r, key)
    ensures multiset(r) == multiset(s)
  {
    if s == [] then []
    else
      assert s == [s[0]] + s[1..];
      Insert(s[0], SortBy(s[1..], key), key)
  }

  function IndexOf(d: GroupChange): int { d.index }

  function Id(x: nat): int { x }

  /** `std::sort` of the group records, ordered by group index. */
  function SortGroups(s: seq<GroupChange>): (r: seq<GroupChange>)
    ensures SortedBy(r, IndexOf) && multiset(r) == multiset(s)
  {
    SortBy(s, IndexOf)
  }

  /** `std::sort` of slot indices. */
  function SortAtoms(s: seq<nat>): (r: seq<nat>)
    ensures SortedBy(r, Id) && multiset(r) == multiset(s)
  {
    SortBy(s, Id)
  }

  predicate Ascending(s: seq<nat>)
  {
    forall i, j :: 0 <= i < j < |s| ==> s[i] <= s[j]
  }

  lemma AscendingById(s: seq<nat>)
    ensures SortedBy(s, Id) <==> Ascending(s)
  {
    assert forall i, j :: 0 <= i < j < |s| ==> (Id(s[i]) <= Id(s[j]) <==> s[i] <= s[j]);
  }

  lemma AscendingHead(a: seq<nat>, x: nat)
    requires Ascending(a) && x in multiset(a)
    ensures a[0] <= x
  {
    assert x in a;
    var j :| 0 <= j < |a| && a[j] == x;
    if j > 0 {
      assert a[0] <= a[j];
    }
  }

  lemma AscendingTail(a: seq<nat>)
    requires Ascending(a) && a != []
    ensures Ascending(a[1..])
    ensures multiset(a[1..]) == multiset(a) - multiset{a[0]}
  {
    assert a == [a[0]] + a[1..];
    forall i, j | 0 <= i < j < |a[1..]| ensures a[1..][i] <= a[1..][j] {
      assert a[1..][i] == a[i + 1] && a[1..][j] == a[j + 1];
    }
  }

  /** Two ascending sequences with the same elements are equal: the sorted order is unique. */
  lemma {:induction false} SortedUnique(a: seq<nat>, b: seq<nat>)
    requires Ascending(a) && Ascending(b)
    requires multiset(a) == multiset(b)
    ensures a == b
    decreases |a|
  {
    if a == [] {
      assert |multiset(b)| == 0;
    } else {
      assert a[0] in multiset(b);
      var x, y := a[0], b[0];
      assert x in multiset(a);
      assert y in multiset(b);
      AscendingHead(a, y);
      AscendingHead(b, x);
      assert x == y;
      AscendingTail(a);
      AscendingTail(b);
      var a', b' := a[1..], b[1..];
      assert multiset(a') == multiset(b');
      SortedUnique(a', b');
      assert a == [x] + a';
      assert b == [y] + b';
    }
  }

  /** Sorting slot indices that already are a run lo..hi-1, in any order, yields that run. */
  lemma SortAtomsRange(s: seq<nat>, lo: nat, hi: nat)
    requires lo <= hi && multiset(s) == multiset(Base.Range(lo, hi))
    ensures SortAtoms(s) == Base.Range(lo, hi)
  {
    var r := SortAtoms(s);
    AscendingById(r);
    var q: seq<nat> := Base.Range(lo, hi);
    assert Ascending(q);
    SortedUnique(r, q);
  }
}
