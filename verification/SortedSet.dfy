/** Lists of numbers sorted as qsort leaves them, and sets listed without
    duplicates. */
module SortedSet {
  import opened Basics

  predicate Ascending(s: seq<u32>) {
    forall i, j :: 0 <= i < j < |s| ==> s[i] <= s[j]
  }

  predicate StrictlyAscending(s: seq<u32>) {
    forall i, j :: 0 <= i < j < |s| ==> s[i] < s[j]
  }

  ghost function Members(s: seq<u32>): set<u32> {
    set x | x in s
  }

  function Insert(x: u32, s: seq<u32>): seq<u32> {
    if s == [] || x <= s[0] then [x] + s else [s[0]] + Insert(x, s[1..])
  }

  /** Stands in for qsort. */
  function Sort(s: seq<u32>): seq<u32> {
    if s == [] then [] else Insert(s[0], Sort(s[1..]))
  }

  /** The first of each run of equal values. */
  function Unique(s: seq<u32>): seq<u32> {
    if |s| <= 1 then s
    else if s[0] == s[1] then Unique(s[1..])
    else [s[0]] + Unique(s[1..])
  }

  /** The members of a list, ascending and without duplicates. */
  function Canonical(s: seq<u32>): seq<u32> {
    Unique(Sort(s))
  }

  lemma {:induction false} InsertSorts(x: u32, s: seq<u32>)
    requires Ascending(s)
    ensures Ascending(Insert(x, s)) && |Insert(x, s)| == |s| + 1
    ensures forall y :: y in Insert(x, s) <==> y == x || y in s
  {
    if s != [] && x > s[0] {
      InsertSorts(x, s[1..]);
      assert s == [s[0]] + s[1..];
      var t := Insert(x, s[1..]);
      forall j | 0 <= j < |t| ensures s[0] <= t[j] {
        assert t[j] in t;
      }
    }
  }

  lemma {:induction false} SortSorts(s: seq<u32>)
    ensures Ascending(Sort(s)) && |Sort(s)| == |s| && forall y :: y in Sort(s) <==> y in s
  {
    if s != [] {
      SortSorts(s[1..]);
      InsertSorts(s[0], Sort(s[1..]));
      assert s == [s[0]] + s[1..];
    }
  }

  lemma {:induction false} UniqueIsStrict(s: seq<u32>)
    requires Ascending(s)
    ensures StrictlyAscending(Unique(s)) && Members(Unique(s)) == Members(s)
    ensures s != [] ==> Unique(s) != [] && Unique(s)[0] == s[0]
  {
    if |s| > 1 {
      UniqueIsStrict(s[1..]);
      assert s == [s[0]] + s[1..];
      var t := Unique(s[1..]);
      if s[0] != s[1] {
        forall j | 0 <= j < |t| ensures s[0] < t[j] {
          assert t[0] == s[1] && (j > 0 ==> t[0] < t[j]);
        }
      }
      forall x ensures x in Unique(s) <==> x in s {
        assert x in t <==> x in Members(t);
        assert x in s[1..] <==> x in Members(s[1..]);
        assert s[1] in s[1..];
      }
    }
  }

  /** Ascending, no duplicates, the same members. */
  lemma CanonicalIs(s: seq<u32>)
    ensures StrictlyAscending(Canonical(s)) && Members(Canonical(s)) == Members(s)
    ensures Canonical(s) == [] <==> s == []
  {
    SortSorts(s);
    UniqueIsStrict(Sort(s));
  }

  lemma SomeMember(s: seq<u32>)
    ensures s != [] ==> Members(s) != {}
  {
    if s != [] {
      assert s[0] in Members(s);
    }
  }

  /** A set has only one strictly ascending listing. */
  lemma {:induction false} StrictIsDetermined(s: seq<u32>, t: seq<u32>)
    requires StrictlyAscending(s) && StrictlyAscending(t) && Members(s) == Members(t)
    ensures s == t
  {
    if s == [] {
      SomeMember(t);
    } else {
      assert s[0] in Members(t) && (t != [] ==> t[0] in Members(s));
      assert s[0] == t[0];
      forall x ensures x in s[1..] <==> x in t[1..] {
        assert x in s <==> x in Members(s);
        assert x in t <==> x in Members(t);
        assert s == [s[0]] + s[1..] && t == [t[0]] + t[1..];
        assert s[0] !in s[1..] && t[0] !in t[1..];
      }
      StrictIsDetermined(s[1..], t[1..]);
    }
  }

  lemma CanonicalByMembers(s: seq<u32>, t: seq<u32>)
    ensures Canonical(s) == Canonical(t) <==> Members(s) == Members(t)
    ensures StrictlyAscending(s) ==> Canonical(s) == s
  {
    CanonicalIs(s);
    CanonicalIs(t);
    if Members(s) == Members(t) {
      StrictIsDetermined(Canonical(s), Canonical(t));
    }
    if StrictlyAscending(s) {
      StrictIsDetermined(Canonical(s), s);
    }
  }
}
