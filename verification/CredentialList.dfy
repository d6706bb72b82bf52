/**
 * Credential records and the sorted list that holds them: lookup, stable sorting by
 * priority, creation time and identifier, and replacement of one record.
 */
module CredentialList {
  import opened Wrappers

  datatype Status = Active | Pending | Revoked | RecoveryOnly | Archived

  /** A record: the fields that calls change or read (`title` is its label), and the rest
      as one block. */
  datatype Credential = Credential(
    id: string, provider: string, priority: real, createdAt: string, status: Status, title: string,
    lastUsedAt: Option<string>, signCount: Option<int>, fixed: string)

  /** The locale's collation: strings compare as their ranks do. */
  type Collation = string -> real

  // ---- Lookup ------------------------------------------------------------------

  /** The first record with the identifier. */
  function Find(cs: seq<Credential>, id: string): (r: Option<Credential>)
    ensures r.Some? ==> r.value in cs && r.value.id == id
    ensures r.None? ==> forall k :: 0 <= k < |cs| ==> cs[k].id != id
  {
    if cs == [] then None else if cs[0].id == id then Some(cs[0]) else Find(cs[1..], id)
  }

  ghost predicate Distinct(cs: seq<Credential>) {
    forall i, j :: 0 <= i < j < |cs| ==> cs[i].id != cs[j].id
  }

  lemma {:induction false} FindAppend(cs: seq<Credential>, c: Credential, id: string)
    ensures Find(cs + [c], id)
         == if Find(cs, id).Some? then Find(cs, id) else if c.id == id then Some(c) else None
  {
    if cs != [] {
      assert (cs + [c])[1..] == cs[1..] + [c];
      FindAppend(cs[1..], c, id);
    }
  }

  lemma DistinctAppend(cs: seq<Credential>, c: Credential)
    ensures Distinct(cs + [c]) <==> Distinct(cs) && Find(cs, c.id).None?
  {
    var all := cs + [c];
    if Distinct(all) {
      forall i, j | 0 <= i < j < |cs| ensures cs[i].id != cs[j].id {
        assert all[i].id != all[j].id;
      }
      forall k | 0 <= k < |cs| ensures cs[k].id != c.id {
        assert all[k].id != all[|cs|].id;
      }
    }
  }

  // ---- Sorting -----------------------------------------------------------------

  /** a may stand before b. */
  predicate NotAfter(rank: Collation, a: Credential, b: Credential) {
    a.priority < b.priority
    || (a.priority == b.priority
        && (rank(a.createdAt) < rank(b.createdAt)
            || (rank(a.createdAt) == rank(b.createdAt) && rank(a.id) <= rank(b.id))))
  }

  ghost predicate Sorted(rank: Collation, cs: seq<Credential>) {
    forall i, j :: 0 <= i < j < |cs| ==> NotAfter(rank, cs[i], cs[j])
  }

  /** Stable insertion: behind every record that may stand before c. */
  function Insert(rank: Collation, cs: seq<Credential>, c: Credential): (r: seq<Credential>)
    ensures |r| == |cs| + 1
  {
    if cs == [] then [c]
    else
      var last := cs[|cs| - 1];
      if NotAfter(rank, last, c) then cs + [c] else Insert(rank, cs[..|cs| - 1], c) + [last]
  }

  function Sort(rank: Collation, cs: seq<Credential>): (r: seq<Credential>)
    ensures |r| == |cs|
  {
    if cs == [] then [] else Insert(rank, Sort(rank, cs[..|cs| - 1]), cs[|cs| - 1])
  }

  lemma SplitLast(cs: seq<Credential>)
    requires cs != []
    ensures cs == cs[..|cs| - 1] + [cs[|cs| - 1]]
  {
  }

  lemma {:induction false} InsertContents(rank: Collation, cs: seq<Credential>, c: Credential)
    ensures multiset(Insert(rank, cs, c)) == multiset(cs) + multiset{c}
  {
    if cs != [] && !NotAfter(rank, cs[|cs| - 1], c) {
      SplitLast(cs);
      InsertContents(rank, cs[..|cs| - 1], c);
    }
  }

  lemma {:induction false} SortContents(rank: Collation, cs: seq<Credential>)
    ensures multiset(Sort(rank, cs)) == multiset(cs)
  {
    if cs != [] {
      SplitLast(cs);
      SortContents(rank, cs[..|cs| - 1]);
      InsertContents(rank, Sort(rank, cs[..|cs| - 1]), cs[|cs| - 1]);
    }
  }

  lemma SortedAppend(rank: Collation, cs: seq<Credential>, c: Credential)
    requires Sorted(rank, cs) && forall k :: 0 <= k < |cs| ==> NotAfter(rank, cs[k], c)
    ensures Sorted(rank, cs + [c])
  {
  }

  lemma {:induction false} InsertSorted(rank: Collation, cs: seq<Credential>, c: Credential)
    requires Sorted(rank, cs)
    ensures Sorted(rank, Insert(rank, cs, c))
  {
    if cs != [] {
      var init, last := cs[..|cs| - 1], cs[|cs| - 1];
      if NotAfter(rank, last, c) {
        SortedAppend(rank, cs, c);
      } else {
        InsertSorted(rank, init, c);
        InsertContents(rank, init, c);
        var r := Insert(rank, init, c);
        forall k | 0 <= k < |r| ensures NotAfter(rank, r[k], last) {
          assert r[k] in multiset(r);
          if r[k] != c { assert r[k] in multiset(init); }
        }
        SortedAppend(rank, r, last);
      }
    }
  }

  lemma {:induction false} SortSorted(rank: Collation, cs: seq<Credential>)
    ensures Sorted(rank, Sort(rank, cs))
  {
    if cs != [] {
      SortSorted(rank, cs[..|cs| - 1]);
      InsertSorted(rank, Sort(rank, cs[..|cs| - 1]), cs[|cs| - 1]);
    }
  }

  /** The records that compare equal to x, in their order. */
  ghost function Ties(rank: Collation, cs: seq<Credential>, x: Credential): seq<Credential> {
    if cs == [] then []
    else
      var last := cs[|cs| - 1];
      Ties(rank, cs[..|cs| - 1], x) + (if NotAfter(rank, last, x) && NotAfter(rank, x, last) then [last] else [])
  }

  lemma {:induction false} InsertTies(rank: Collation, cs: seq<Credential>, c: Credential, x: Credential)
    ensures Ties(rank, Insert(rank, cs, c), x) == Ties(rank, cs + [c], x)
  {
    assert (cs + [c])[..|cs|] == cs;
    if cs != [] && !NotAfter(rank, cs[|cs| - 1], c) {
      var init, last := cs[..|cs| - 1], cs[|cs| - 1];
      var r := Insert(rank, init, c);
      InsertTies(rank, init, c, x);
      assert (r + [last])[..|r|] == r;
      assert (init + [c])[..|init|] == init;
    }
  }

  /** The sort is stable: records that compare equal keep their order. */
  lemma {:induction false} SortStable(rank: Collation, cs: seq<Credential>, x: Credential)
    ensures Ties(rank, Sort(rank, cs), x) == Ties(rank, cs, x)
  {
    if cs != [] {
      var init, last := cs[..|cs| - 1], cs[|cs| - 1];
      var sorted := Sort(rank, init);
      SortStable(rank, init, x);
      InsertTies(rank, sorted, last, x);
      assert (sorted + [last])[..|sorted|] == sorted;
    }
  }

  lemma {:induction false} FindInsert(rank: Collation, cs: seq<Credential>, c: Credential, id: string)
    requires Find(cs, c.id).None?
    ensures Find(Insert(rank, cs, c), id) == if id == c.id then Some(c) else Find(cs, id)
  {
    hide NotAfter;
    if cs != [] {
      var init, last := cs[..|cs| - 1], cs[|cs| - 1];
      FindAppend(cs, c, id);
      SplitLast(cs);
      FindAppend(init, last, c.id);
      FindInsert(rank, init, c, id);
      FindAppend(Insert(rank, init, c), last, id);
      FindAppend(init, last, id);
    }
  }

  lemma {:induction false} DistinctInsert(rank: Collation, cs: seq<Credential>, c: Credential)
    requires Distinct(cs) && Find(cs, c.id).None?
    ensures Distinct(Insert(rank, cs, c))
  {
    hide NotAfter;
    DistinctAppend(cs, c);
    if cs != [] {
      var init, last := cs[..|cs| - 1], cs[|cs| - 1];
      SplitLast(cs);
      DistinctAppend(init, last);
      FindAppend(init, last, c.id);
      DistinctInsert(rank, init, c);
      FindInsert(rank, init, c, last.id);
      DistinctAppend(Insert(rank, init, c), last);
    }
  }

  /** Sorting distinct records keeps them distinct and keeps every lookup. */
  lemma {:induction false} SortKeeps(rank: Collation, cs: seq<Credential>)
    requires Distinct(cs)
    ensures Distinct(Sort(rank, cs))
    ensures forall id :: Find(Sort(rank, cs), id) == Find(cs, id)
  {
    if cs != [] {
      var init, last := cs[..|cs| - 1], cs[|cs| - 1];
      SplitLast(cs);
      DistinctAppend(init, last);
      SortKeeps(rank, init);
      DistinctInsert(rank, Sort(rank, init), last);
      forall id ensures Find(Sort(rank, cs), id) == Find(cs, id) {
        FindInsert(rank, Sort(rank, init), last, id);
        FindAppend(init, last, id);
      }
    }
  }

  // ---- Replacing one record --------------------------------------------------------

  datatype Update =
    | ToStatus(status: Status)
    | ToTitle(title: string)
    | ToUsed(at: string, signCount: Option<int>)

  function Updated(c: Credential, u: Update): (r: Credential)
    ensures r.id == c.id
  {
    match u
    case ToStatus(s) => c.(status := s)
    case ToTitle(t) => c.(title := t)
    case ToUsed(at, n) => c.(lastUsedAt := Some(at), signCount := if n.Some? then n else c.signCount)
  }

  function Replace(cs: seq<Credential>, id: string, u: Update): (r: seq<Credential>)
    ensures |r| == |cs|
    ensures forall k :: 0 <= k < |cs| ==> r[k] == if cs[k].id == id then Updated(cs[k], u) else cs[k]
  {
    if cs == [] then []
    else [if cs[0].id == id then Updated(cs[0], u) else cs[0]] + Replace(cs[1..], id, u)
  }

  lemma {:induction false} FindReplace(cs: seq<Credential>, id: string, u: Update, x: string)
    ensures Find(Replace(cs, id, u), x)
         == if x == id && Find(cs, x).Some? then Some(Updated(Find(cs, x).value, u)) else Find(cs, x)
  {
    hide Updated;
    if cs != [] {
      FindReplace(cs[1..], id, u, x);
      assert Replace(cs, id, u)[1..] == Replace(cs[1..], id, u);
    }
  }

  lemma DistinctReplace(cs: seq<Credential>, id: string, u: Update)
    requires Distinct(cs)
    ensures Distinct(Replace(cs, id, u))
  {
    forall i, j | 0 <= i < j < |cs| ensures Replace(cs, id, u)[i].id != Replace(cs, id, u)[j].id {
      assert cs[i].id != cs[j].id;
    }
  }
}
