/**
 * Equality expressions answered from term postings: intersections within a group, a capped
 * union over groups, and node-id cursors (crates/pelago-query/src/executor.rs).
 */
module TermQuery {
  import opened Common
  import opened ByteOrder
  import opened TermRewrite

  const U64_MAX: nat := 0xFFFF_FFFF_FFFF_FFFF

  /** Posting lists in id order, and the document counts that happen to be stored. */
  datatype TermIndex = TermIndex(postings: map<Term, seq<Bytes>>, counts: map<Term, nat>)

  function Posting(idx: TermIndex, t: Term): seq<Bytes> {
    if t in idx.postings then idx.postings[t] else []
  }

  ghost predicate Sorted(idx: TermIndex) {
    forall t :: t in idx.postings ==> Ascending(idx.postings[t])
  }

  function Df(idx: TermIndex, t: Term): nat {
    if t in idx.counts then idx.counts[t] else U64_MAX / 4
  }

  // ---- reading postings ----

  function FetchLimit(df: nat, target: nat, cap: nat): nat {
    var baseline := Max(Min(target * 16, U64_MAX), 1024);
    Max(Min(if df >= U64_MAX / 8 then baseline else Max(df, baseline), cap), 1)
  }

  function IsAfter(after: Option<Bytes>): Bytes -> bool {
    (x: Bytes) => after.None? || Less(after.value, x)
  }

  function AfterId(ids: seq<Bytes>, after: Option<Bytes>): seq<Bytes> {
    Filter(ids, IsAfter(after))
  }

  /** One read of the term path: where it starts, how much it wants, and the memory cap. */
  datatype Read = Read(after: Option<Bytes>, target: nat, cap: nat)

  function Fetch(idx: TermIndex, t: Term, r: Read): seq<Bytes> {
    Take(AfterId(Posting(idx, t), r.after), FetchLimit(Df(idx, t), r.target, r.cap))
  }

  function Fetcher(idx: TermIndex, r: Read): Term -> set<Bytes> {
    (t: Term) => SetOf(Fetch(idx, t, r))
  }

  /** Ids fetched for every term of a group; none for an empty group. */
  function Shared(group: seq<Term>, fetch: Term -> set<Bytes>): set<Bytes> {
    if group == [] then {} else set x | x in fetch(group[0]) && forall t :: t in group ==> x in fetch(t)
  }

  method InsertBy(terms: seq<Term>, t: Term, df: Term -> nat) returns (out: seq<Term>)
    requires SortedBy(terms, df)
    ensures SortedBy(out, df) && SetOf(out) == SetOf(terms) + {t} && |out| == |terms| + 1
  {
    var i := |terms|;
    while i > 0 && df(terms[i - 1]) > df(t)
      invariant 0 <= i <= |terms|
      invariant forall j :: i <= j < |terms| ==> df(terms[j]) > df(t)
    {
      i := i - 1;
    }
    out := terms[..i] + [t] + terms[i..];
    InsertedSorted(terms, i, t, df);
    InsertedMembers(terms, i, t);
  }

  lemma InsertedSorted(terms: seq<Term>, i: nat, t: Term, df: Term -> nat)
    requires SortedBy(terms, df) && i <= |terms| && (i > 0 ==> df(terms[i - 1]) <= df(t))
    requires forall j :: i <= j < |terms| ==> df(terms[j]) > df(t)
    ensures SortedBy(terms[..i] + [t] + terms[i..], df)
  {
    var out := terms[..i] + [t] + terms[i..];
    assert forall j :: 0 <= j < i ==> out[j] == terms[j];
    assert forall j :: i < j < |out| ==> out[j] == terms[j - 1];
    assert out[i] == t;
  }

  lemma InsertedMembers<T>(s: seq<T>, i: nat, x: T)
    requires i <= |s|
    ensures SetOf(s[..i] + [x] + s[i..]) == SetOf(s) + {x}
  {
    assert s == s[..i] + s[i..];
  }

  ghost predicate SortedBy(terms: seq<Term>, df: Term -> nat) {
    forall i, j :: 0 <= i < j < |terms| ==> df(terms[i]) <= df(terms[j])
  }

  /** Selectivity-first order. */
  method OrderBy(group: seq<Term>, df: Term -> nat) returns (out: seq<Term>)
    ensures SortedBy(out, df) && SetOf(out) == SetOf(group) && |out| == |group|
  {
    out := [];
    var i := 0;
    while i < |group|
      invariant 0 <= i <= |group| && SortedBy(out, df)
      invariant SetOf(out) == SetOf(group[..i]) && |out| == i
    {
      assert group[..i + 1] == group[..i] + [group[i]];
      out := InsertBy(out, group[i], df);
      i := i + 1;
    }
    assert group[..i] == group;
  }

  /** Intersect in the given order, stopping once nothing is left. */
  method Intersect(terms: seq<Term>, fetch: Term -> set<Bytes>) returns (ids: set<Bytes>)
    requires terms != []
    ensures ids == Shared(terms, fetch)
  {
    ids := fetch(terms[0]);
    var i := 1;
    assert terms[..1] == [terms[0]];
    while i < |terms| && ids != {}
      invariant 1 <= i <= |terms|
      invariant ids == Shared(terms[..i], fetch)
    {
      assert terms[..i + 1] == terms[..i] + [terms[i]];
      ids := ids * fetch(terms[i]);
      i := i + 1;
    }
    SharedShrinks(terms, fetch, i);
    assert i == |terms| ==> terms[..i] == terms;
  }

  lemma SharedShrinks(terms: seq<Term>, fetch: Term -> set<Bytes>, i: nat)
    requires 1 <= i <= |terms|
    ensures Shared(terms, fetch) <= Shared(terms[..i], fetch)
  {
    assert forall t :: t in terms[..i] ==> t in terms;
  }

  /** The order of a group's terms does not matter. */
  lemma SharedByMembers(a: seq<Term>, b: seq<Term>, fetch: Term -> set<Bytes>)
    requires SetOf(a) == SetOf(b)
    ensures Shared(a, fetch) == Shared(b, fetch)
  {
    assert forall t :: t in a <==> t in SetOf(a);
    assert forall t :: t in b <==> t in SetOf(b);
    if a != [] {
      assert a[0] in a;
    }
    if b != [] {
      assert b[0] in b;
    }
  }

  method ExecuteTermGroup(idx: TermIndex, group: seq<Term>, r: Read) returns (ids: set<Bytes>)
    ensures ids == Shared(group, Fetcher(idx, r))
  {
    if group == [] {
      return {};
    }
    var terms := OrderBy(group, (t: Term) => Df(idx, t));
    ids := Intersect(terms, Fetcher(idx, r));
    SharedByMembers(terms, group, Fetcher(idx, r));
  }

  // ---- the union ----

  function UnionOf(groups: seq<seq<Term>>, fetch: Term -> set<Bytes>): set<Bytes> {
    if groups == [] then {}
    else UnionOf(groups[..|groups| - 1], fetch) + Shared(groups[|groups| - 1], fetch)
  }

  /** Insert ids in whatever order they come until the cap is reached. */
  method AddUpTo(union: set<Bytes>, ids: set<Bytes>, cap: nat) returns (out: set<Bytes>)
    ensures union <= out <= union + ids
    ensures |out| < cap ==> out == union + ids
  {
    out := union;
    var left := ids;
    while left != {} && |out| < cap
      invariant union <= out <= union + ids
      invariant left <= ids && union + ids == out + left
      decreases left
    {
      var id :| id in left;
      out := out + {id};
      left := left - {id};
    }
  }

  lemma SubsetFull<T>(a: set<T>, b: set<T>)
    requires a <= b && |a| >= |b|
    ensures a == b
  {
    assert b == a + (b - a);
  }

  lemma {:induction false} UnionGrows(groups: seq<seq<Term>>, fetch: Term -> set<Bytes>, n: nat)
    requires n <= |groups|
    ensures UnionOf(groups[..n], fetch) <= UnionOf(groups, fetch)
    decreases |groups| - n
  {
    if n == |groups| {
      assert groups[..n] == groups;
    } else {
      UnionStep(groups, fetch, n);
      UnionGrows(groups, fetch, n + 1);
    }
  }

  lemma UnionStep(groups: seq<seq<Term>>, fetch: Term -> set<Bytes>, n: nat)
    requires n < |groups|
    ensures UnionOf(groups[..n + 1], fetch) == UnionOf(groups[..n], fetch) + Shared(groups[n], fetch)
  {
    assert groups[..n + 1][..n] == groups[..n];
  }

  method SortIds(ids: set<Bytes>) returns (out: seq<Bytes>)
    ensures Ascending(out) && SetOf(out) == ids
  {
    out := [];
    var left := ids;
    while left != {}
      invariant left <= ids && left !! SetOf(out) && left + SetOf(out) == ids && Ascending(out)
      decreases left
    {
      var id :| id in left;
      out := InsertId(out, id);
      left := left - {id};
    }
  }

  method InsertId(ids: seq<Bytes>, id: Bytes) returns (out: seq<Bytes>)
    requires Ascending(ids) && id !in ids
    ensures Ascending(out) && SetOf(out) == SetOf(ids) + {id}
  {
    var i := 0;
    while i < |ids| && Less(ids[i], id)
      invariant 0 <= i <= |ids|
      invariant forall j :: 0 <= j < i ==> Less(ids[j], id)
    {
      i := i + 1;
    }
    forall j | i <= j < |ids|
      ensures Less(id, ids[j])
    {
      LessTrichotomy(id, ids[i]);
      if j > i {
        LessTransitive(id, ids[i], ids[j]);
      }
    }
    out := ids[..i] + [id] + ids[i..];
    InsertedMembers(ids, i, id);
  }

  /** The union over groups, cut off arbitrarily at the cap. */
  ghost predicate Capped(union: set<Bytes>, whole: set<Bytes>, cap: nat) {
    union <= whole && (union == whole || |union| >= cap)
  }

  method ExecuteTermGroups(idx: TermIndex, groups: seq<seq<Term>>, r: Read) returns (out: seq<Bytes>)
    ensures Ascending(out) && SetOf(out) <= UnionOf(groups, Fetcher(idx, r))
    ensures |UnionOf(groups, Fetcher(idx, r))| <= r.cap ==> SetOf(out) == UnionOf(groups, Fetcher(idx, r))
  {
    var union: set<Bytes> := {};
    ghost var fetch := Fetcher(idx, r);
    var i := 0;
    while i < |groups|
      invariant 0 <= i <= |groups|
      invariant Capped(union, UnionOf(groups[..i], fetch), r.cap)
    {
      var ids := ExecuteTermGroup(idx, groups[i], r);
      UnionStep(groups, fetch, i);
      ghost var was := union;
      union := AddUpTo(union, ids, r.cap);
      CappedStep(was, UnionOf(groups[..i], fetch), ids, union, r.cap);
      i := i + 1;
      if |union| >= r.cap {
        break;
      }
    }
    CappedPrefix(groups, fetch, i, union, r.cap);
    out := SortIds(union);
  }

  lemma CappedStep(union: set<Bytes>, whole: set<Bytes>, ids: set<Bytes>, grown: set<Bytes>, cap: nat)
    requires Capped(union, whole, cap) && union <= grown <= union + ids && (|grown| < cap ==> grown == union + ids)
    ensures Capped(grown, whole + ids, cap)
  {
    if |union| >= cap {
      assert grown == union + (grown - union);
    }
  }

  lemma CappedPrefix(groups: seq<seq<Term>>, fetch: Term -> set<Bytes>, i: nat, union: set<Bytes>, cap: nat)
    requires i <= |groups| && Capped(union, UnionOf(groups[..i], fetch), cap) && (i == |groups| || |union| >= cap)
    ensures union <= UnionOf(groups, fetch)
    ensures |UnionOf(groups, fetch)| <= cap ==> union == UnionOf(groups, fetch)
  {
    UnionGrows(groups, fetch, i);
    if i == |groups| {
      assert groups[..i] == groups;
    }
    CappedWhole(union, UnionOf(groups, fetch), cap);
  }

  lemma CappedWhole(union: set<Bytes>, whole: set<Bytes>, cap: nat)
    requires Capped(union, whole, cap)
    ensures |whole| <= cap ==> union == whole
  {
    if |whole| <= cap && |union| >= cap {
      SubsetFull(union, whole);
    }
  }
}
