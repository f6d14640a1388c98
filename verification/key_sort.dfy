/** Sorting of `(key, value)` items by key, the way `sorted(d.items())` orders
    the items of a dict whose keys are distinct strings. */
module KeySort {
  import opened StringOrder

  predicate StrictlySorted<V>(s: seq<(string, V)>)
  {
    forall i, j :: 0 <= i < j < |s| ==> Less(s[i].0, s[j].0)
  }

  predicate DistinctKeys<V>(s: seq<(string, V)>)
  {
    forall i, j :: 0 <= i < j < |s| ==> s[i].0 != s[j].0
  }

  predicate KeyAbsent<V>(k: string, s: seq<(string, V)>)
  {
    forall i :: 0 <= i < |s| ==> s[i].0 != k
  }

  predicate AllAbove<V>(k: string, s: seq<(string, V)>)
  {
    forall i :: 0 <= i < |s| ==> Less(k, s[i].0)
  }

  lemma ConsSorted<V>(x: (string, V), s: seq<(string, V)>)
    requires StrictlySorted(s) && AllAbove(x.0, s)
    ensures StrictlySorted([x] + s)
  {
    var r := [x] + s;
    forall i, j | 0 <= i < j < |r|
      ensures Less(r[i].0, r[j].0)
    {
      if i == 0 {
        assert r[j] == s[j - 1];
      } else {
        assert r[i] == s[i - 1] && r[j] == s[j - 1];
      }
    }
  }

  /** Inserts `x` in front of the first item whose key is not below `x`'s. */
  function Insert<V>(x: (string, V), s: seq<(string, V)>): (r: seq<(string, V)>)
    ensures multiset(r) == multiset(s) + multiset{x}
    ensures StrictlySorted(s) && KeyAbsent(x.0, s) ==> StrictlySorted(r)
  {
    if |s| == 0 || !Less(s[0].0, x.0) then
      InsertFrontSorted(x, s);
      [x] + s
    else
      var rest := Insert(x, s[1..]);
      assert s == [s[0]] + s[1..];
      InsertBehindSorted(x, s, rest);
      [s[0]] + rest
  }

  lemma InsertFrontSorted<V>(x: (string, V), s: seq<(string, V)>)
    requires |s| == 0 || !Less(s[0].0, x.0)
    ensures StrictlySorted(s) && KeyAbsent(x.0, s) ==> StrictlySorted([x] + s)
  {
    if StrictlySorted(s) && KeyAbsent(x.0, s) {
      if |s| > 0 {
        LessTotal(x.0, s[0].0);
        forall i | 0 <= i < |s|
          ensures Less(x.0, s[i].0)
        {
          if i > 0 {
            LessTransitive(x.0, s[0].0, s[i].0);
          }
        }
      }
      ConsSorted(x, s);
    }
  }

  lemma InsertBehindSorted<V>(x: (string, V), s: seq<(string, V)>, rest: seq<(string, V)>)
    requires |s| > 0 && Less(s[0].0, x.0)
    requires multiset(rest) == multiset(s[1..]) + multiset{x}
    requires StrictlySorted(s[1..]) && KeyAbsent(x.0, s[1..]) ==> StrictlySorted(rest)
    ensures StrictlySorted(s) && KeyAbsent(x.0, s) ==> StrictlySorted([s[0]] + rest)
  {
    if StrictlySorted(s) && KeyAbsent(x.0, s) {
      forall i | 0 <= i < |rest|
        ensures Less(s[0].0, rest[i].0)
      {
        assert rest[i] in multiset(rest);
        if rest[i] != x {
          assert rest[i] in multiset(s[1..]);
          var j :| 0 <= j < |s[1..]| && s[1..][j] == rest[i];
          assert s[j + 1] == rest[i];
        }
      }
      ConsSorted(s[0], rest);
    }
  }

  /** Insertion sort by key: a permutation of `s`, strictly ordered when the
      keys of `s` are distinct. */
  function SortByKey<V>(s: seq<(string, V)>): (r: seq<(string, V)>)
    ensures multiset(r) == multiset(s)
    ensures DistinctKeys(s) ==> StrictlySorted(r)
  {
    if |s| == 0 then []
    else
      var rest := SortByKey(s[1..]);
      assert s == [s[0]] + s[1..];
      SortedRestLacksHead(s, rest);
      Insert(s[0], rest)
  }

  lemma SortedRestLacksHead<V>(s: seq<(string, V)>, rest: seq<(string, V)>)
    requires |s| > 0 && multiset(rest) == multiset(s[1..])
    ensures DistinctKeys(s) ==> DistinctKeys(s[1..]) && KeyAbsent(s[0].0, rest)
  {
    if DistinctKeys(s) {
      forall i | 0 <= i < |rest|
        ensures rest[i].0 != s[0].0
      {
        assert rest[i] in multiset(s[1..]);
        var j :| 0 <= j < |s[1..]| && s[1..][j] == rest[i];
        assert s[j + 1] == rest[i];
      }
    }
  }

  /** A strictly sorted sequence is determined by its set of items. */
  lemma {:induction false} StrictlySortedUnique<V>(s: seq<(string, V)>, t: seq<(string, V)>)
    requires StrictlySorted(s) && StrictlySorted(t)
    requires forall x :: x in s <==> x in t
    ensures s == t
  {
    if |s| > 0 {
      assert s[0] in t;
    }
    if |t| > 0 {
      assert t[0] in s;
    }
    if |s| > 0 {
      var k :| 0 <= k < |s| && s[k] == t[0];
      assert s[0] in t;
      var m :| 0 <= m < |t| && t[m] == s[0];
      if k != 0 {
        // s[0] sorts strictly below s[k] == t[0], yet t[0] is t's least item
        if m != 0 {
          LessTransitive(t[0].0, t[m].0, t[0].0);
        }
        LessIrreflexive(t[0].0);
      }
      assert s[0] == t[0];
      forall x
        ensures x in s[1..] <==> x in t[1..]
      {
        if x in s[1..] {
          var i :| 0 <= i < |s[1..]| && s[1..][i] == x;
          LessIrreflexive(s[0].0);
          assert x in t && x != t[0];
          var j :| 0 <= j < |t| && t[j] == x;
          assert j != 0 && t[1..][j - 1] == x;
        }
        if x in t[1..] {
          var i :| 0 <= i < |t[1..]| && t[1..][i] == x;
          LessIrreflexive(t[0].0);
          assert x in s && x != s[0];
          var j :| 0 <= j < |s| && s[j] == x;
          assert j != 0 && s[1..][j - 1] == x;
        }
      }
      StrictlySortedUnique(s[1..], t[1..]);
      assert s == [s[0]] + s[1..] && t == [t[0]] + t[1..];
    }
  }
}
