/**
 * Groups of several terms without document counts: every posting is read only so far, and an id
 * is lost to the intersection exactly if it lies too deep in one of them
 * (crates/pelago-query/src/executor.rs).
 */
module TermReach {
  import opened Common
  import opened ByteOrder
  import opened TermRewrite
  import opened TermQuery
  import opened TermPaging

  // ---- how deep an id lies ----

  function Before(x: Bytes): Bytes -> bool {
    (y: Bytes) => Less(y, x)
  }

  /** How many ids of the posting a read passes between its start and `x`. */
  function Ahead(idx: TermIndex, t: Term, after: Option<Bytes>, x: Bytes): nat {
    |Filter(AfterId(Posting(idx, t), after), Before(x))|
  }

  /** In every posting of the group fewer ids than are read stand between the cursor and `x`. */
  ghost predicate GroupReaches(idx: TermIndex, group: seq<Term>, r: Read, x: Bytes) {
    && GroupMatches(idx, group, x)
    && forall t :: t in group ==> Ahead(idx, t, r.after, x) < FetchLimit(Df(idx, t), r.target, r.cap)
  }

  ghost predicate InReach(idx: TermIndex, groups: seq<seq<Term>>, r: Read, x: Bytes) {
    IsAfter(r.after)(x) && exists g :: 0 <= g < |groups| && GroupReaches(idx, groups[g], r, x)
  }

  lemma AheadOf(list: seq<Bytes>, i: nat)
    requires Ascending(list) && i < |list|
    ensures Filter(list, Before(list[i])) == list[..i]
  {
    var p := Before(list[i]);
    var head, tail := list[..i], list[i..];
    assert list == head + tail;
    FilterAppend(head, tail, p);
    forall j | 0 <= j < |tail|
      ensures !p(tail[j])
    {
      assert tail[j] == list[i + j];
      LessTrichotomy(list[i], tail[j]);
    }
    FilterNone(tail, p);
    FilterAll(head, p);
  }

  lemma PostingAscending(idx: TermIndex, t: Term, after: Option<Bytes>)
    requires Sorted(idx)
    ensures Ascending(AfterId(Posting(idx, t), after))
  {
    AfterAscending(Posting(idx, t), after);
  }

  /** A posting yields an id exactly if it holds it and the limit reaches it. */
  lemma PostingReaches(idx: TermIndex, t: Term, r: Read, x: Bytes)
    requires Sorted(idx)
    ensures x in Fetcher(idx, r)(t) <==>
            && x in Posting(idx, t) && IsAfter(r.after)(x)
            && Ahead(idx, t, r.after, x) < FetchLimit(Df(idx, t), r.target, r.cap)
  {
    var list := AfterId(Posting(idx, t), r.after);
    PostingAscending(idx, t, r.after);
    AfterMember(Posting(idx, t), r.after, x);
    if x in list {
      var i :| 0 <= i < |list| && list[i] == x;
      AheadOf(list, i);
      TakenAt(list, FetchLimit(Df(idx, t), r.target, r.cap), i);
    }
  }

  lemma TakenAt(list: seq<Bytes>, n: nat, i: nat)
    requires Ascending(list) && i < |list|
    ensures list[i] in Take(list, n) <==> i < n
  {
    AscendingNoDup(list);
    if i < n {
      assert Take(list, n)[i] == list[i];
    }
  }

  lemma GroupFetches(idx: TermIndex, group: seq<Term>, r: Read, x: Bytes)
    requires Sorted(idx)
    ensures x in Shared(group, Fetcher(idx, r)) <==> GroupReaches(idx, group, r, x) && IsAfter(r.after)(x)
  {
    forall t | t in group
      ensures x in Fetcher(idx, r)(t) <==>
              && x in Posting(idx, t) && IsAfter(r.after)(x)
              && Ahead(idx, t, r.after, x) < FetchLimit(Df(idx, t), r.target, r.cap)
    {
      PostingReaches(idx, t, r, x);
    }
    if group != [] {
      assert group[0] in group;
    }
  }

  /** Counts or not: an id is fetched exactly if it is in reach of some group. */
  lemma FetchedIffInReach(idx: TermIndex, groups: seq<seq<Term>>, r: Read, x: Bytes)
    requires Sorted(idx)
    ensures x in UnionOf(groups, Fetcher(idx, r)) <==> InReach(idx, groups, r, x)
  {
    UnionMember(groups, Fetcher(idx, r), x);
    forall g | 0 <= g < |groups|
      ensures x in Shared(groups[g], Fetcher(idx, r)) <==>
              GroupReaches(idx, groups[g], r, x) && IsAfter(r.after)(x)
    {
      GroupFetches(idx, groups[g], r, x);
    }
  }

  // ---- when a page is the answer's page ----

  /** The answers a read reaches. */
  ghost function Reached(idx: TermIndex, groups: seq<seq<Term>>, answer: seq<Bytes>, r: Read): set<Bytes> {
    set x | x in AfterId(answer, r.after) && InReach(idx, groups, r, x)
  }

  lemma UnionIsReached(idx: TermIndex, groups: seq<seq<Term>>, answer: seq<Bytes>, r: Read)
    requires Sorted(idx) && IsAnswer(idx, groups, answer)
    ensures UnionOf(groups, Fetcher(idx, r)) == Reached(idx, groups, answer, r)
  {
    forall x
      ensures x in UnionOf(groups, Fetcher(idx, r)) <==> x in Reached(idx, groups, answer, r)
    {
      FetchedIffInReach(idx, groups, r, x);
      if x in UnionOf(groups, Fetcher(idx, r)) {
        FetchedMatches(idx, groups, r, x);
        AfterMember(answer, r.after, x);
      }
    }
  }

  /** Every answer of the page is in reach, and if there are more, so is one more. */
  ghost predicate PageInReach(idx: TermIndex, groups: seq<seq<Term>>, answer: seq<Bytes>, r: Read, limit: nat) {
    var next := AfterId(answer, r.after);
    && (forall i :: 0 <= i < limit && i < |next| ==> InReach(idx, groups, r, next[i]))
    && (|next| > limit ==> |Reached(idx, groups, answer, r)| > limit)
  }

  /** The page of found ids, all of them answers that resolve. */
  lemma FoundPage(ids: seq<Bytes>, answer: seq<Bytes>, resolves: Bytes -> bool, limit: nat, cursor: Option<Bytes>)
    requires (forall x :: x in SetOf(ids) ==> x in AfterId(answer, cursor)) && (forall x :: x in answer ==> resolves(x))
    ensures PageFrom(ids, resolves, limit, cursor) == AnswerPage(ids, limit, cursor)
    ensures AfterId(ids, cursor) == ids
  {
    AfterAll(ids, answer, cursor);
    forall x | x in ids
      ensures resolves(x)
    {
      assert x in SetOf(ids);
      AfterMember(answer, cursor, x);
    }
    AllResolve(ids, resolves, cursor, limit + 1);
    LookAhead(ids, limit, PageFrom(ids, resolves, limit, cursor));
  }

  /** Pages of two ascending lists, one within the other, are equal exactly if page and look-ahead are there. */
  lemma SamePageIff(ids: seq<Bytes>, next: seq<Bytes>, limit: nat)
    requires Ascending(ids) && Ascending(next) && (forall x :: x in SetOf(ids) ==> x in next)
    ensures (Take(ids, limit) == Take(next, limit) && (|ids| > limit <==> |next| > limit)) <==>
            (forall i :: 0 <= i < limit && i < |next| ==> next[i] in SetOf(ids)) && (|next| > limit ==> |ids| > limit)
  {
    AscendingNoDup(ids);
    NoDupCardinality(ids);
    SmallSet(SetOf(ids), next);
    if forall i :: 0 <= i < limit && i < |next| ==> next[i] in SetOf(ids) {
      CoversSorted(ids, next, limit);
    }
    if Take(ids, limit) == Take(next, limit) {
      forall i | 0 <= i < limit && i < |next|
        ensures next[i] in SetOf(ids)
      {
        assert Take(next, limit)[i] == next[i];
        assert next[i] in Take(ids, limit);
      }
    }
  }

  lemma AnswerPageIff(ids: seq<Bytes>, answer: seq<Bytes>, limit: nat, cursor: Option<Bytes>)
    requires AfterId(ids, cursor) == ids
    ensures AnswerPage(ids, limit, cursor) == AnswerPage(answer, limit, cursor) <==>
            var next := AfterId(answer, cursor);
            Take(ids, limit) == Take(next, limit) && (|ids| > limit <==> |next| > limit)
  {
    var next := AfterId(answer, cursor);
    if Take(ids, limit) == Take(next, limit) && |ids| > limit && |next| > limit > 0 {
      assert Take(ids, limit)[limit - 1] == Take(next, limit)[limit - 1];
    }
  }

  /**
   * With the union under the cap and every answer resolving, a page is the first `limit` answers
   * after the cursor, with the right cursor, if and only if they are in reach of the read.
   */
  lemma TermPageIff(idx: TermIndex, groups: seq<seq<Term>>, answer: seq<Bytes>, resolves: Bytes -> bool,
                    limit: nat, maxLimit: nat, cursor: Option<Bytes>, page: Page)
    requires Sorted(idx) && IsAnswer(idx, groups, answer) && (forall x :: x in answer ==> resolves(x))
    requires |UnionOf(groups, Fetcher(idx, ReadOf(limit, maxLimit, cursor)))| <= Max(20 * maxLimit, 5000)
    requires Answers(idx, groups, resolves, limit, maxLimit, cursor, page)
    ensures page == AnswerPage(answer, Min(limit, maxLimit), cursor) <==>
            PageInReach(idx, groups, answer, ReadOf(limit, maxLimit, cursor), Min(limit, maxLimit))
  {
    var n, r := Min(limit, maxLimit), ReadOf(limit, maxLimit, cursor);
    var ids :| Found(idx, groups, r, ids) && page == PageFrom(ids, resolves, n, cursor);
    UnionIsReached(idx, groups, answer, r);
    FoundPageIff(ids, answer, resolves, n, cursor, Reached(idx, groups, answer, r));
    InReachIff(idx, groups, answer, r, n);
  }

  lemma FoundPageIff(ids: seq<Bytes>, answer: seq<Bytes>, resolves: Bytes -> bool, n: nat, cursor: Option<Bytes>,
                     reached: set<Bytes>)
    requires Ascending(ids) && Ascending(answer) && SetOf(ids) == reached
    requires (forall x :: x in reached ==> x in AfterId(answer, cursor)) && (forall x :: x in answer ==> resolves(x))
    ensures PageFrom(ids, resolves, n, cursor) == AnswerPage(answer, n, cursor) <==>
            var next := AfterId(answer, cursor);
            (forall i :: 0 <= i < n && i < |next| ==> next[i] in reached) && (|next| > n ==> |reached| > n)
  {
    var next := AfterId(answer, cursor);
    AfterAscending(answer, cursor);
    FoundPage(ids, answer, resolves, n, cursor);
    AnswerPageIff(ids, answer, n, cursor);
    SamePageIff(ids, next, n);
    AscendingNoDup(ids);
    NoDupCardinality(ids);
  }

  lemma InReachIff(idx: TermIndex, groups: seq<seq<Term>>, answer: seq<Bytes>, r: Read, n: nat)
    ensures var next, reached := AfterId(answer, r.after), Reached(idx, groups, answer, r);
            PageInReach(idx, groups, answer, r, n) <==>
            (forall i :: 0 <= i < n && i < |next| ==> next[i] in reached) && (|next| > n ==> |reached| > n)
  {
    var next, reached := AfterId(answer, r.after), Reached(idx, groups, answer, r);
    assert forall i :: 0 <= i < |next| ==> (next[i] in reached <==> InReach(idx, groups, r, next[i]));
  }

  /** Too deep in a posting that every matching group needs. */
  ghost predicate TooDeep(idx: TermIndex, groups: seq<seq<Term>>, t: Term, r: Read, x: Bytes) {
    && Ahead(idx, t, r.after, x) >= FetchLimit(Df(idx, t), r.target, r.cap)
    && forall g :: 0 <= g < |groups| && GroupMatches(idx, groups[g], x) ==> t in groups[g]
  }

  lemma PageFromFound(ids: seq<Bytes>, resolves: Bytes -> bool, limit: nat, cursor: Option<Bytes>, x: Bytes)
    requires x in PageFrom(ids, resolves, limit, cursor).nodes
    ensures x in ids
  {
    var window := Take(AfterId(ids, cursor), limit + 1);
    assert x in Filter(window, resolves);
    FilterMember(window, resolves, x);
    assert x in AfterId(ids, cursor);
    AfterMember(ids, cursor, x);
  }

  /** An answer too deep in a posting is on no page, whatever the other postings hold. */
  lemma DeepAnswerLost(idx: TermIndex, groups: seq<seq<Term>>, t: Term, resolves: Bytes -> bool, limit: nat,
                       maxLimit: nat, cursor: Option<Bytes>, page: Page, x: Bytes)
    requires Sorted(idx) && TooDeep(idx, groups, t, ReadOf(limit, maxLimit, cursor), x)
    requires Answers(idx, groups, resolves, limit, maxLimit, cursor, page)
    ensures x !in page.nodes
  {
    var n, r := Min(limit, maxLimit), ReadOf(limit, maxLimit, cursor);
    var ids :| Found(idx, groups, r, ids) && page == PageFrom(ids, resolves, n, cursor);
    FetchedIffInReach(idx, groups, r, x);
    assert !InReach(idx, groups, r, x);
    assert x !in SetOf(ids);
    if x in page.nodes {
      PageFromFound(ids, resolves, n, cursor, x);
    }
  }

  // ---- how deep that is ----

  /** At least sixteen times the target, and at least 1024 ids, as far as the cap allows. */
  lemma FetchDepth(df: nat, target: nat, cap: nat)
    requires 16 * target <= U64_MAX
    ensures FetchLimit(df, target, cap) >= Min(cap, Max(16 * target, 1024))
    ensures df >= U64_MAX / 8 ==> FetchLimit(df, target, cap) == Max(1, Min(cap, Max(16 * target, 1024)))
    ensures df < U64_MAX / 8 ==> FetchLimit(df, target, cap) == Max(1, Min(cap, Max(df, Max(16 * target, 1024))))
  {
  }

  /** A matching id with fewer ids than that ahead of it in every posting of its group is fetched, counts or not. */
  lemma ShallowIsFetched(idx: TermIndex, groups: seq<seq<Term>>, g: nat, r: Read, x: Bytes)
    requires Sorted(idx) && 16 * r.target <= U64_MAX && g < |groups| && GroupMatches(idx, groups[g], x)
    requires IsAfter(r.after)(x)
    requires forall t :: t in groups[g] ==> Ahead(idx, t, r.after, x) < Min(r.cap, Max(16 * r.target, 1024))
    ensures x in UnionOf(groups, Fetcher(idx, r))
  {
    forall t | t in groups[g]
      ensures Ahead(idx, t, r.after, x) < FetchLimit(Df(idx, t), r.target, r.cap)
    {
      FetchDepth(Df(idx, t), r.target, r.cap);
    }
    assert GroupReaches(idx, groups[g], r, x);
    FetchedIffInReach(idx, groups, r, x);
  }

  /** Without a count for a term it needs, one with that many ahead in its posting is not. */
  lemma DeepIsNotFetched(idx: TermIndex, groups: seq<seq<Term>>, t: Term, r: Read, x: Bytes)
    requires Sorted(idx) && 16 * r.target <= U64_MAX && t !in idx.counts && r.cap > 0
    requires forall g :: 0 <= g < |groups| && GroupMatches(idx, groups[g], x) ==> t in groups[g]
    requires Ahead(idx, t, r.after, x) >= Min(r.cap, Max(16 * r.target, 1024))
    ensures x !in UnionOf(groups, Fetcher(idx, r))
  {
    FetchDepth(Df(idx, t), r.target, r.cap);
    FetchedIffInReach(idx, groups, r, x);
    assert !InReach(idx, groups, r, x);
  }

  /**
   * In numbers: an answer with sixteen times the page and its look-ahead, or 1024 if that is more, or
   * the cap of twenty times the maximum limit or 5000, ahead of it in an uncounted posting all its
   * groups need is on no page.
   */
  lemma DeepPageLost(idx: TermIndex, groups: seq<seq<Term>>, t: Term, resolves: Bytes -> bool, limit: nat,
                     maxLimit: nat, cursor: Option<Bytes>, page: Page, x: Bytes)
    requires Sorted(idx) && maxLimit <= 0xFFFF_FFFF && t !in idx.counts
    requires forall g :: 0 <= g < |groups| && GroupMatches(idx, groups[g], x) ==> t in groups[g]
    requires Ahead(idx, t, cursor, x) >= Min(Max(20 * maxLimit, 5000), Max(16 * (Min(limit, maxLimit) + 1), 1024))
    requires Answers(idx, groups, resolves, limit, maxLimit, cursor, page)
    ensures x !in page.nodes
  {
    var r := ReadOf(limit, maxLimit, cursor);
    FetchDepth(Df(idx, t), r.target, r.cap);
    DeepAnswerLost(idx, groups, t, resolves, limit, maxLimit, cursor, page, x);
  }
}
