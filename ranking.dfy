/**
 * Deterministic descending ranking used twice by the recommender: neighbours
 * are ranked by similarity to the target user, and movies by their score.
 * pandas' `sort_values(ascending=False)` leaves ties in an unspecified order;
 * this model breaks ties by ascending id, so the order is a total order on
 * (key, id) pairs and the ranked sequence of any multiset is unique.
 */
module Ranking {

  /** A ranked item: `id` is a row or column position, `key` its score. */
  datatype Entry = Entry(id: int, key: real)

  /** `a` may stand before `b`: higher key first, ties by ascending id. */
  predicate Precedes(a: Entry, b: Entry)
  {
    a.key > b.key || (a.key == b.key && a.id <= b.id)
  }

  predicate Ranked(s: seq<Entry>)
  {
    forall i, j :: 0 <= i < j < |s| ==> Precedes(s[i], s[j])
  }

  lemma PrecedesTotal(a: Entry, b: Entry)
    ensures Precedes(a, b) || Precedes(b, a)
    ensures Precedes(a, b) && Precedes(b, a) ==> a == b
  {
  }

  /** An entry that precedes everything in a ranked sequence may head it. */
  lemma ConsRanked(e: Entry, s: seq<Entry>)
    requires Ranked(s)
    requires forall x :: x in s ==> Precedes(e, x)
    ensures Ranked([e] + s)
  {
    var r := [e] + s;
    forall i, j | 0 <= i < j < |r|
      ensures Precedes(r[i], r[j])
    {
      assert r[j] == s[j - 1] && s[j - 1] in s;
      if i > 0 {
        assert r[i] == s[i - 1];
      }
    }
  }

  /** Inserts `e` into an already ranked sequence. */
  function Insert(e: Entry, s: seq<Entry>): (r: seq<Entry>)
    requires Ranked(s)
    ensures Ranked(r)
    ensures multiset(r) == multiset(s) + multiset{e}
  {
    if s == [] || Precedes(e, s[0]) then
      assert forall x :: x in s ==> Precedes(s[0], x);
      ConsRanked(e, s);
      [e] + s
    else
      var rest := Insert(e, s[1..]);
      assert s == [s[0]] + s[1..];
      forall x | x in rest
        ensures Precedes(s[0], x)
      {
        assert x in multiset(rest);
        if x != e { assert x in s[1..]; }
      }
      ConsRanked(s[0], rest);
      [s[0]] + rest
  }

  /** Insertion sort: the ranked permutation of `s`. */
  function Rank(s: seq<Entry>): (r: seq<Entry>)
    ensures Ranked(r)
    ensures multiset(r) == multiset(s)
    ensures |r| == |s|
  {
    if s == [] then []
    else
      assert s == [s[0]] + s[1..];
      Insert(s[0], Rank(s[1..]))
  }

  /** Two ranked arrangements of the same non-empty multiset start with the same entry. */
  lemma RankedHeads(r1: seq<Entry>, r2: seq<Entry>)
    requires Ranked(r1) && Ranked(r2) && r1 != []
    requires multiset(r1) == multiset(r2)
    ensures r2 != [] && r1[0] == r2[0]
  {
    assert r1[0] in multiset(r2);
    var k :| 0 <= k < |r2| && r2[k] == r1[0];
    assert r2[0] in multiset(r1);
    var m :| 0 <= m < |r1| && r1[m] == r2[0];
    assert Precedes(r1[0], r2[0]) by {
      if m > 0 { assert Precedes(r1[0], r1[m]); }
    }
    assert Precedes(r2[0], r1[0]) by {
      if k > 0 { assert Precedes(r2[0], r2[k]); }
    }
    PrecedesTotal(r1[0], r2[0]);
  }

  /** Removing equal heads from equal multisets leaves equal multisets. */
  lemma TailMultiset(r1: seq<Entry>, r2: seq<Entry>)
    requires r1 != [] && r2 != [] && r1[0] == r2[0]
    requires multiset(r1) == multiset(r2)
    ensures multiset(r1[1..]) == multiset(r2[1..])
  {
    assert r1 == [r1[0]] + r1[1..];
    assert r2 == [r2[0]] + r2[1..];
    assert multiset(r1) == multiset{r1[0]} + multiset(r1[1..]);
    assert multiset(r2) == multiset{r2[0]} + multiset(r2[1..]);
    assert multiset(r1[1..]) == multiset(r1) - multiset{r1[0]};
  }

  /** Two ranked arrangements of the same entries are the same sequence. */
  lemma {:induction false} RankedUnique(r1: seq<Entry>, r2: seq<Entry>)
    requires Ranked(r1) && Ranked(r2)
    requires multiset(r1) == multiset(r2)
    ensures r1 == r2
    decreases |r1|
  {
    if r1 == [] {
      assert |multiset(r2)| == 0;
    } else {
      RankedHeads(r1, r2);
      TailMultiset(r1, r2);
      SuffixRanked(r1, 1);
      SuffixRanked(r2, 1);
      RankedUnique(r1[1..], r2[1..]);
      assert r1 == [r1[0]] + r1[1..] && r2 == [r2[0]] + r2[1..];
    }
  }

  /** Ranking does not depend on the order in which entries arrive. */
  lemma RankIsOrderIndependent(s: seq<Entry>, t: seq<Entry>)
    requires multiset(s) == multiset(t)
    ensures Rank(s) == Rank(t)
  {
    RankedUnique(Rank(s), Rank(t));
  }

  /** The first ranked entry precedes every entry of the input. */
  lemma RankHeadPrecedesAll(s: seq<Entry>)
    requires s != []
    ensures |Rank(s)| == |s|
    ensures forall x :: x in s ==> Precedes(Rank(s)[0], x)
  {
    var r := Rank(s);
    assert |r| == |multiset(r)| == |multiset(s)| == |s|;
    forall x | x in s
      ensures Precedes(r[0], x)
    {
      assert x in multiset(r);
      var k :| 0 <= k < |r| && r[k] == x;
      if k > 0 { assert Precedes(r[0], r[k]); }
    }
  }

  /** The ids of `s`, in order. */
  function Ids(s: seq<Entry>): (ids: seq<int>)
    ensures |ids| == |s|
    ensures forall k :: 0 <= k < |s| ==> ids[k] == s[k].id
  {
    seq(|s|, k requires 0 <= k < |s| => s[k].id)
  }

  /** The first `k` entries, or all of them when there are fewer. */
  function Take(s: seq<Entry>, k: nat): (r: seq<Entry>)
    ensures |r| == if |s| < k then |s| else k
    ensures forall i :: 0 <= i < |r| ==> r[i] == s[i]
    ensures Ranked(s) ==> Ranked(r)
    ensures UniqueIds(s) ==> UniqueIds(r)
  {
    if |s| <= k then s else s[..k]
  }

  /** The entries of `s` whose id is not `id`, in their original order. */
  function Without(s: seq<Entry>, id: int): (r: seq<Entry>)
    ensures forall x :: x in r <==> x in s && x.id != id
  {
    if s == [] then []
    else if s[0].id == id then Without(s[1..], id)
    else
      var rest := Without(s[1..], id);
      assert forall x :: x in rest ==> x in s[1..];
      [s[0]] + rest
  }

  /** A suffix of a ranked sequence is ranked. */
  lemma SuffixRanked(s: seq<Entry>, k: nat)
    requires Ranked(s) && k <= |s|
    ensures Ranked(s[k..])
  {
    forall i, j | 0 <= i < j < |s| - k
      ensures Precedes(s[k..][i], s[k..][j])
    {
      assert Precedes(s[i + k], s[j + k]);
    }
  }

  /** Dropping the first entry of a ranking leaves the ranking of the rest. */
  lemma RankedTail(r: seq<Entry>, o: seq<Entry>)
    requires Ranked(r) && Ranked(o) && r != []
    requires multiset(o) == multiset(r) - multiset{r[0]}
    ensures r[1..] == o
  {
    assert multiset(r[1..]) == multiset(o) by {
      assert r == [r[0]] + r[1..];
      assert multiset(r) == multiset{r[0]} + multiset(r[1..]);
    }
    SuffixRanked(r, 1);
    RankedUnique(r[1..], o);
  }

  /** Dropping the head keeps a sequence ranked and its ids distinct. */
  lemma SuffixKeepsOrder(s: seq<Entry>)
    requires s != []
    ensures Ranked(s) ==> Ranked(s[1..])
    ensures UniqueIds(s) ==> UniqueIds(s[1..])
  {
    if Ranked(s) {
      SuffixRanked(s, 1);
    }
  }

  /**
   * Keeping the head of `s` in front of `rest`, a selection from its tail,
   * keeps the order and the distinct ids of `s`.
   */
  lemma KeepHead(s: seq<Entry>, rest: seq<Entry>)
    requires s != []
    requires forall x :: x in rest ==> x in s[1..]
    requires Ranked(s[1..]) ==> Ranked(rest)
    requires UniqueIds(s[1..]) ==> UniqueIds(rest)
    ensures Ranked(s) ==> Ranked([s[0]] + rest)
    ensures UniqueIds(s) ==> UniqueIds([s[0]] + rest)
  {
    SuffixKeepsOrder(s);
    if Ranked(s) {
      forall x | x in rest
        ensures Precedes(s[0], x)
      {
        var i :| 0 <= i < |s[1..]| && s[1..][i] == x;
        assert s[i + 1] == x;
      }
      ConsRanked(s[0], rest);
    }
    if UniqueIds(s) {
      forall x | x in rest
        ensures x.id != s[0].id
      {
        var i :| 0 <= i < |s[1..]| && s[1..][i] == x;
        assert s[i + 1] == x;
      }
      ConsUniqueIds(s[0], rest);
    }
  }

  /** Removing an id distributes over concatenation. */
  lemma {:induction false} WithoutConcat(a: seq<Entry>, b: seq<Entry>, id: int)
    ensures Without(a + b, id) == Without(a, id) + Without(b, id)
  {
    if a == [] {
      assert a + b == b;
    } else {
      assert (a + b)[1..] == a[1..] + b;
      WithoutConcat(a[1..], b, id);
    }
  }

  /** Removing an id nobody has changes nothing. */
  lemma {:induction false} WithoutAbsent(s: seq<Entry>, id: int)
    requires forall x :: x in s ==> x.id != id
    ensures Without(s, id) == s
  {
    if s != [] {
      assert s[0] in s;
      assert forall x :: x in s[1..] ==> x in s;
      WithoutAbsent(s[1..], id);
      calc {
        Without(s, id);
        [s[0]] + Without(s[1..], id);
        [s[0]] + s[1..];
        s;
      }
    }
  }

  /** No two entries share an id. */
  predicate UniqueIds(s: seq<Entry>)
  {
    forall i, j :: 0 <= i < j < |s| ==> s[i].id != s[j].id
  }

  /** Dropping the entry at `k` keeps the ids distinct, and none of the rest has its id. */
  lemma RemoveUniqueId(s: seq<Entry>, k: nat)
    requires UniqueIds(s) && k < |s|
    ensures UniqueIds(s[..k] + s[k + 1..])
    ensures forall x :: x in s[..k] + s[k + 1..] ==> x.id != s[k].id
  {
    var s' := s[..k] + s[k + 1..];
    assert forall q :: 0 <= q < |s'| ==> s'[q] == if q < k then s[q] else s[q + 1];
    forall i, j | 0 <= i < j < |s'|
      ensures s'[i].id != s'[j].id
    {
      var i', j' := if i < k then i else i + 1, if j < k then j else j + 1;
      assert s'[i] == s[i'] && s'[j] == s[j'] && i' < j';
    }
  }

  lemma RemoveAtMultiset(s: seq<Entry>, k: nat)
    requires k < |s|
    ensures multiset(s[..k] + s[k + 1..]) == multiset(s) - multiset{s[k]}
  {
    assert s == s[..k] + [s[k]] + s[k + 1..];
  }

  /** Putting an entry with a fresh id in front keeps the ids distinct. */
  lemma ConsUniqueIds(e: Entry, tail: seq<Entry>)
    requires UniqueIds(tail)
    requires forall x :: x in tail ==> x.id != e.id
    ensures UniqueIds([e] + tail)
  {
    var r := [e] + tail;
    forall i, j | 0 <= i < j < |r|
      ensures r[i].id != r[j].id
    {
      assert r[j] == tail[j - 1] && tail[j - 1] in tail;
      if i > 0 {
        assert r[i] == tail[i - 1];
      } else {
        assert r[i] == e;
      }
    }
  }

  /** Matches the first entry of `r` in `s` and returns the rest of `s`. */
  lemma MatchFirst(s: seq<Entry>, r: seq<Entry>) returns (rest: seq<Entry>)
    requires multiset(r) == multiset(s) && UniqueIds(s) && r != []
    ensures multiset(r[1..]) == multiset(rest) && UniqueIds(rest)
    ensures forall x :: x in rest ==> x.id != r[0].id
  {
    assert r[0] in multiset(s);
    var k :| 0 <= k < |s| && s[k] == r[0];
    rest := s[..k] + s[k + 1..];
    assert multiset(r[1..]) == multiset(rest) by {
      RemoveAtMultiset(s, k);
      assert r == [r[0]] + r[1..];
      assert multiset(r) == multiset{r[0]} + multiset(r[1..]);
    }
    RemoveUniqueId(s, k);
  }

  /** Rearranging entries keeps their ids distinct. */
  lemma {:induction false} PermutationUniqueIds(s: seq<Entry>, r: seq<Entry>)
    requires multiset(r) == multiset(s) && UniqueIds(s)
    ensures UniqueIds(r)
    decreases |r|
  {
    if r != [] {
      var rest := MatchFirst(s, r);
      var tail := r[1..];
      PermutationUniqueIds(rest, tail);
      forall x | x in tail
        ensures x.id != r[0].id
      {
        assert x in multiset(rest);
      }
      ConsUniqueIds(r[0], tail);
      assert r == [r[0]] + tail;
    }
  }

  /**
   * Top-k: in a ranked sequence, an entry left out of the first k comes
   * after every entry that was kept.
   */
  lemma OmittedFollowsPrefix(s: seq<Entry>, k: nat, x: Entry)
    requires Ranked(s) && k <= |s|
    requires x in s && x !in s[..k]
    ensures forall i :: 0 <= i < k ==> Precedes(s[i], x)
  {
    var p :| 0 <= p < |s| && s[p] == x;
  }
}
