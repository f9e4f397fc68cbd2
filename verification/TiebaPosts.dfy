/** Fetching the latest floors of a thread: the paging loop and the in-place trim to the newest few. */
module TiebaPosts {
  const POST_JUMP_PAGE: int := 0x4000_0000
  const DEFAULT_POSTS: nat := 5

  datatype Post = Post(id: int, time: int)

  // ---- what trimming must return ----

  predicate IsNew(p: Post, base: int) { base > 0 ==> p.id > base }

  function Eligible(s: seq<Post>, base: int): seq<Post>
  {
    if s == [] then []
    else Eligible(s[..|s| - 1], base) + if IsNew(s[|s| - 1], base) then [s[|s| - 1]] else []
  }

  ghost predicate OldestFirst(s: seq<Post>)
  {
    forall i, j :: 0 <= i < j < |s| ==> s[i].time <= s[j].time
  }

  ghost predicate NewestFirst(s: seq<Post>)
  {
    forall i, j :: 0 <= i < j < |s| ==> s[i].time >= s[j].time
  }

  function Min(a: nat, b: nat): nat { if a < b then a else b }

  /** out is a newest-n choice among the eligible posts of input, oldest first. */
  ghost predicate LatestOf(out: seq<Post>, input: seq<Post>, base: int, n: nat)
  {
    var all := multiset(Eligible(input, base));
    && multiset(out) <= all
    && |out| == Min(n, |all|)
    && OldestFirst(out)
    && (forall x, y :: x in multiset(out) && y in all - multiset(out) ==> y.time <= x.time)
    && (forall x <- out :: IsNew(x, base))
  }

  // ---- facts about the eligible posts ----

  lemma {:induction false} EligibleCounts(s: seq<Post>, base: int)
    ensures forall p :: multiset(Eligible(s, base))[p] == if IsNew(p, base) then multiset(s)[p] else 0
  {
    if s != [] {
      var init, last := s[..|s| - 1], s[|s| - 1];
      EligibleCounts(init, base);
      assert s == init + [last];
    }
  }

  lemma EligibleOfPermutation(s: seq<Post>, t: seq<Post>, base: int)
    requires multiset(s) == multiset(t)
    ensures multiset(Eligible(s, base)) == multiset(Eligible(t, base))
  {
    EligibleCounts(s, base);
    EligibleCounts(t, base);
  }

  lemma {:induction false} EligibleArePosts(s: seq<Post>, base: int)
    ensures |Eligible(s, base)| <= |s|
    ensures forall p <- Eligible(s, base) :: p in s && IsNew(p, base)
  {
    if s != [] {
      EligibleArePosts(s[..|s| - 1], base);
    }
  }

  lemma {:induction false} AllEligible(s: seq<Post>, base: int)
    requires base <= 0
    ensures Eligible(s, base) == s
  {
    if s != [] {
      AllEligible(s[..|s| - 1], base);
    }
  }

  lemma {:induction false} EligibleKeepsOrder(s: seq<Post>, base: int)
    requires NewestFirst(s)
    ensures NewestFirst(Eligible(s, base))
  {
    if s != [] {
      var init, last := s[..|s| - 1], s[|s| - 1];
      EligibleKeepsOrder(init, base);
      EligibleArePosts(init, base);
      var kept := Eligible(init, base);
      forall i | 0 <= i < |kept|
        ensures kept[i].time >= last.time
      {
        assert kept[i] in init;
      }
    }
  }

  function Reversed(s: seq<Post>): (r: seq<Post>)
    ensures |r| == |s|
    ensures forall i :: 0 <= i < |s| ==> r[i] == s[|s| - 1 - i]
  {
    seq(|s|, i requires 0 <= i < |s| => s[|s| - 1 - i])
  }

  lemma {:induction false} ReversedKeepsPosts(s: seq<Post>)
    ensures multiset(Reversed(s)) == multiset(s)
  {
    if s != [] {
      var init, last := s[..|s| - 1], s[|s| - 1];
      ReversedKeepsPosts(init);
      assert Reversed(s) == [last] + Reversed(init);
      assert s == init + [last];
    }
  }

  lemma HeadBeatsTail(e: seq<Post>, m: nat)
    requires NewestFirst(e) && m <= |e|
    ensures multiset(e) == multiset(e[..m]) + multiset(e[m..])
    ensures forall x: Post, y: Post :: x in e[..m] && y in e[m..] ==> y.time <= x.time
  {
    assert e == e[..m] + e[m..];
  }

  /** Sorting newest first, filtering, keeping a prefix and reversing picks a newest-n choice. */
  lemma TrimIsLatest(input: seq<Post>, sorted: seq<Post>, base: int, n: nat)
    requires multiset(sorted) == multiset(input) && NewestFirst(sorted)
    ensures var e := Eligible(sorted, base); LatestOf(Reversed(e[..Min(n, |e|)]), input, base, n)
  {
    var e := Eligible(sorted, base);
    EligibleKeepsOrder(sorted, base);
    EligibleArePosts(sorted, base);
    EligibleOfPermutation(sorted, input, base);
    PrefixIsLatest(e, input, base, n);
  }

  lemma PrefixIsLatest(e: seq<Post>, input: seq<Post>, base: int, n: nat)
    requires NewestFirst(e) && multiset(e) == multiset(Eligible(input, base))
    requires forall p <- e :: IsNew(p, base)
    ensures LatestOf(Reversed(e[..Min(n, |e|)]), input, base, n)
  {
    var m := Min(n, |e|);
    assert |multiset(e)| == |e|;
    ReversedKeepsPosts(e[..m]);
    PrefixDominates(e, m);
    ReversedIsOldestFirst(e, m);
    ReversedFrom(e, m, base);
  }

  lemma PrefixDominates(e: seq<Post>, m: nat)
    requires NewestFirst(e) && m <= |e|
    ensures multiset(e[..m]) <= multiset(e)
    ensures forall x, y :: x in multiset(e[..m]) && y in multiset(e) - multiset(e[..m]) ==> y.time <= x.time
  {
    HeadBeatsTail(e, m);
    assert multiset(e) - multiset(e[..m]) == multiset(e[m..]);
  }

  lemma ReversedIsOldestFirst(e: seq<Post>, m: nat)
    requires NewestFirst(e) && m <= |e|
    ensures OldestFirst(Reversed(e[..m]))
  {
  }

  lemma ReversedFrom(e: seq<Post>, m: nat, base: int)
    requires m <= |e| && forall p <- e :: IsNew(p, base)
    ensures forall x <- Reversed(e[..m]) :: IsNew(x, base)
  {
    forall i | 0 <= i < m
      ensures IsNew(Reversed(e[..m])[i], base)
    {
      assert e[m - 1 - i] in e;
    }
  }

  // ---- the in-place algorithm ----

  ghost predicate SortedTo(a: array<Post>, n: nat)
    reads a
    requires n <= a.Length
  {
    forall x, y :: 0 <= x < y < n ==> a[x].time >= a[y].time
  }

  /** sort.Slice with "newer first": only the order and the contents are promised, ties fall anyhow. */
  method SortNewestFirst(a: array<Post>)
    modifies a
    ensures NewestFirst(a[..])
    ensures multiset(a[..]) == old(multiset(a[..]))
  {
    for i := 0 to a.Length
      invariant SortedTo(a, i)
      invariant multiset(a[..]) == old(multiset(a[..]))
    {
      Insert(a, i);
    }
  }

  /** Sinks element i into the sorted front. */
  method Insert(a: array<Post>, i: nat)
    requires i < a.Length && SortedTo(a, i)
    modifies a
    ensures SortedTo(a, i + 1)
    ensures multiset(a[..]) == old(multiset(a[..]))
  {
    var j := i;
    while j > 0 && a[j - 1].time < a[j].time
      invariant 0 <= j <= i
      invariant forall x, y :: 0 <= x < y <= i && y != j ==> a[x].time >= a[y].time
      invariant multiset(a[..]) == old(multiset(a[..]))
    {
      Swap(a, j - 1, j);
      j := j - 1;
    }
  }

  method Swap(a: array<Post>, i: nat, j: nat)
    requires i < a.Length && j < a.Length
    modifies a
    ensures a[i] == old(a[j]) && a[j] == old(a[i])
    ensures forall k :: 0 <= k < a.Length && k != i && k != j ==> a[k] == old(a[k])
    ensures multiset(a[..]) == old(multiset(a[..]))
  {
    a[i], a[j] := a[j], a[i];
  }

  /** kept := collected[:0]; eligible posts are moved to the front. */
  method KeepEligible(a: array<Post>, base: int) returns (kept: nat)
    modifies a
    ensures kept <= a.Length
    ensures a[..kept] == Eligible(old(a[..]), base)
  {
    kept := 0;
    ghost var s := a[..];
    for i := 0 to a.Length
      invariant 0 <= kept <= i
      invariant a[..kept] == Eligible(s[..i], base)
      invariant forall k :: i <= k < a.Length ==> a[k] == s[k]
    {
      assert s[..i + 1][..i] == s[..i];
      if IsNew(a[i], base) {
        a[kept] := a[i];
        kept := kept + 1;
      }
    }
    assert s[..a.Length] == s;
  }

  method ReverseFront(a: array<Post>, len: nat)
    requires len <= a.Length
    modifies a
    ensures a[..len] == Reversed(old(a[..len]))
  {
    ghost var s := a[..];
    var i, j := 0, len - 1;
    while i < j
      invariant 0 <= i <= len && i + j == len - 1
      invariant forall k :: 0 <= k < i || j < k < len ==> a[k] == s[len - 1 - k]
      invariant forall k :: i <= k <= j ==> a[k] == s[k]
    {
      a[i], a[j] := a[j], a[i];
      i, j := i + 1, j - 1;
    }
  }

  /** The result is the front of the array, as the returned slice shares the collected posts' storage. */
  method TrimToLatest(a: array<Post>, base: int, n: nat) returns (len: nat)
    modifies a
    ensures len <= a.Length
    ensures LatestOf(a[..len], old(a[..]), base, n)
  {
    SortNewestFirst(a);
    ghost var sorted := a[..];
    len := FilterFront(a, base);
    ghost var e := a[..len];
    if len > n {
      len := n;
    }
    assert a[..len] == e[..Min(n, |e|)];
    ReverseFront(a, len);
    TrimIsLatest(old(a[..]), sorted, base, n);
  }

  /** Without a watermark nothing is filtered. */
  method FilterFront(a: array<Post>, base: int) returns (len: nat)
    modifies a
    ensures len <= a.Length
    ensures a[..len] == Eligible(old(a[..]), base)
  {
    AllEligibleOrFiltered(a[..], base);
    len := a.Length;
    assert a[..len] == a[..];
    if base > 0 {
      len := KeepEligible(a, base);
    }
  }

  lemma AllEligibleOrFiltered(s: seq<Post>, base: int)
    ensures base <= 0 ==> Eligible(s, base) == s
  {
    if base <= 0 {
      AllEligible(s, base);
    }
  }

  // ---- the paging loop ----

  datatype Answer = PageError | PageOf(posts: seq<Post>, hasMore: int, totalPage: int)

  /** Answers may differ from request to request. */
  type Pages = (int, nat) -> Answer

  datatype Latest = Invalid | FetchFailed | Posts(posts: seq<Post>)

  function Ask(pages: Pages, pn: int, k: nat): Answer { pages(pn, k) }

  /** The first request asks far past the end; its answer says where the last page really is. */
  function NextPage(pn: int, totalPage: int): int
  {
    if pn == POST_JUMP_PAGE then totalPage - 1 else pn - 1
  }

  predicate BeyondJump(answer: Answer) { answer.PageOf? && answer.totalPage > POST_JUMP_PAGE }

  /** The posts of the pages visited, in order; the k-th request is number k. */
  ghost function Collected(visited: seq<int>, pages: Pages): seq<Post>
  {
    if visited == [] then []
    else
      var k := |visited| - 1;
      Collected(visited[..k], pages) +
      match Ask(pages, visited[k], k) case PageOf(posts, _, _) => posts case PageError => []
  }

  /** From one page to the next: more is announced, not enough is collected, and the next page exists. */
  ghost predicate GoesOn(visited: seq<int>, k: nat, want: nat, pages: Pages)
    requires k < |visited|
  {
    var answer := Ask(pages, visited[k], k);
    && answer.PageOf? && answer.hasMore == 1
    && |Collected(visited[..k + 1], pages)| < want
    && NextPage(visited[k], answer.totalPage) >= 1
  }

  ghost predicate StepsTo(visited: seq<int>, k: nat, want: nat, pages: Pages)
    requires k + 1 < |visited|
  {
    && GoesOn(visited, k, want, pages)
    && visited[k + 1] == NextPage(visited[k], Ask(pages, visited[k], k).totalPage)
  }

  ghost predicate IsWalk(visited: seq<int>, want: nat, pages: Pages)
  {
    && visited != [] && visited[0] == POST_JUMP_PAGE
    && forall k :: 0 <= k < |visited| - 1 ==> StepsTo(visited, k, want, pages)
  }

  /** A walk of n steps. */
  ghost predicate HasWalk(pages: Pages, want: nat, n: nat)
  {
    exists visited :: |visited| == n + 1 && IsWalk(visited, want, pages)
  }

  /** The loop ends against a server: some number of steps is never made. */
  ghost predicate Ends(pages: Pages, want: nat) { exists n :: !HasWalk(pages, want, n) }

  lemma WalkPrefix(visited: seq<int>, n: nat, want: nat, pages: Pages)
    requires IsWalk(visited, want, pages) && 0 < n <= |visited|
    ensures IsWalk(visited[..n], want, pages)
  {
    var init := visited[..n];
    forall k | 0 <= k < n - 1
      ensures StepsTo(init, k, want, pages)
    {
      assert StepsTo(visited, k, want, pages);
      assert init[..k + 1] == visited[..k + 1];
    }
  }

  lemma StillShort(visited: seq<int>, end: nat, want: nat, pages: Pages)
    requires IsWalk(visited, want, pages) && !HasWalk(pages, want, end)
    ensures |visited| <= end
  {
    if |visited| > end {
      WalkPrefix(visited, end + 1, want, pages);
    }
  }

  /** From one page to the next: more was announced, the next page exists, and it is the one before this one. */
  ghost predicate MovesBack(page: int, answer: Answer, next: int)
  {
    && answer.PageOf? && answer.hasMore == 1
    && next >= 1 && next == if page == 0x4000_0000 then answer.totalPage - 1 else page - 1
  }

  ghost predicate MovesBackThroughout(visited: seq<int>, pages: Pages)
  {
    forall k :: 0 <= k < |visited| - 1 ==> MovesBack(visited[k], Ask(pages, visited[k], k), visited[k + 1])
  }

  ghost predicate CannotMoveBack(page: int, answer: Answer) { forall next :: !MovesBack(page, answer, next) }

  lemma WalkMovesBack(visited: seq<int>, want: nat, pages: Pages)
    requires IsWalk(visited, want, pages)
    ensures MovesBackThroughout(visited, pages)
  {
    forall k | 0 <= k < |visited| - 1
      ensures MovesBack(visited[k], Ask(pages, visited[k], k), visited[k + 1])
    {
      assert StepsTo(visited, k, want, pages);
    }
  }

  /** The paging loop, against every server that lets it end. */
  method CollectPages(want: nat, pages: Pages) returns (ok: bool, got: seq<Post>, ghost visited: seq<int>)
    requires Ends(pages, want)
    ensures IsWalk(visited, want, pages)
    ensures ok <==> Ask(pages, visited[|visited| - 1], |visited| - 1).PageOf?
    ensures ok ==> !GoesOn(visited, |visited| - 1, want, pages) && got == Collected(visited, pages)
    ensures MovesBackThroughout(visited, pages)
    ensures var last := |visited| - 1;
            ok && |got| < want ==> CannotMoveBack(visited[last], Ask(pages, visited[last], last))
  {
    got := [];
    var pn, k := POST_JUMP_PAGE, 0;
    visited := [pn];
    ghost var end: nat :| !HasWalk(pages, want, end);
    StillShort(visited, end, want, pages);
    while true
      invariant k < end
      invariant |visited| == k + 1 && visited[k] == pn
      invariant IsWalk(visited, want, pages)
      invariant got == Collected(visited[..k], pages)
      decreases end - k
    {
      var answer := Ask(pages, pn, k);
      assert visited[..k + 1] == visited;
      WalkMovesBack(visited, want, pages);
      if answer.PageError? {
        return false, got, visited;
      }
      got := got + answer.posts;
      if |got| >= want || answer.hasMore != 1 {
        return true, got, visited;
      }
      var next := NextPage(pn, answer.totalPage);
      if next < 1 {
        return true, got, visited;
      }
      WalkOn(visited, next, want, pages);
      visited := visited + [next];
      StillShort(visited, end, want, pages);
      assert visited[..k + 1] == visited[..|visited| - 1];
      pn, k := next, k + 1;
    }
  }

  function Want(n: int): nat { if n <= 0 then DEFAULT_POSTS else n }

  method FetchLatestPosts(tid: int, base: int, n: int, pages: Pages)
    returns (r: Latest, ghost visited: seq<int>)
    requires tid > 0 ==> Ends(pages, Want(n))
    ensures r == Invalid <==> tid <= 0
    ensures r.Posts? ==>
              var want := Want(n);
              && IsWalk(visited, want, pages)
              && Ask(pages, visited[|visited| - 1], |visited| - 1).PageOf?
              && !GoesOn(visited, |visited| - 1, want, pages)
              && LatestOf(r.posts, Collected(visited, pages), base, want)
    ensures r == FetchFailed ==>
              && IsWalk(visited, Want(n), pages)
              && Ask(pages, visited[|visited| - 1], |visited| - 1).PageError?
  {
    visited := [];
    if tid <= 0 {
      return Invalid, [];
    }
    var want: nat := if n <= 0 then DEFAULT_POSTS else n;
    var ok, got;
    ok, got, visited := CollectPages(want, pages);
    if !ok {
      return FetchFailed, visited;
    }
    if |got| == 0 {
      assert LatestOf([], [], base, want);
      return Posts([]), visited;
    }
    var a := new Post[|got|](i requires 0 <= i < |got| => got[i]);
    assert a[..] == got;
    var len := TrimToLatest(a, base, want);
    r := Posts(a[..len]);
  }

  lemma WalkOn(visited: seq<int>, next: int, want: nat, pages: Pages)
    requires IsWalk(visited, want, pages) && GoesOn(visited, |visited| - 1, want, pages)
    requires next == NextPage(visited[|visited| - 1], Ask(pages, visited[|visited| - 1], |visited| - 1).totalPage)
    ensures IsWalk(visited + [next], want, pages)
  {
    var all := visited + [next];
    forall k | 0 <= k < |all| - 1
      ensures StepsTo(all, k, want, pages)
    {
      assert all[..k + 1] == visited[..k + 1];
      if k < |visited| - 1 {
        assert StepsTo(visited, k, want, pages);
      }
    }
  }

  ghost predicate PositivePages(pages: Pages)
  {
    forall pn, k :: PositivePosts(Ask(pages, pn, k))
  }

  predicate PositivePosts(answer: Answer) { answer.PageOf? ==> forall p <- answer.posts :: p.id > 0 }

  lemma {:induction false} CollectedArePositive(visited: seq<int>, pages: Pages)
    requires PositivePages(pages)
    ensures forall p <- Collected(visited, pages) :: p.id > 0
  {
    if visited != [] {
      var k := |visited| - 1;
      CollectedArePositive(visited[..k], pages);
      assert PositivePosts(Ask(pages, visited[k], k));
    }
  }

  /** A server with positive ids leads to positive ids. */
  lemma LatestArePositive(out: seq<Post>, visited: seq<int>, pages: Pages, base: int, want: nat)
    requires PositivePages(pages) && LatestOf(out, Collected(visited, pages), base, want)
    ensures forall p <- out :: p.id > 0
  {
    CollectedArePositive(visited, pages);
    EligibleArePosts(Collected(visited, pages), base);
    forall p | p in out
      ensures p.id > 0
    {
      assert p in multiset(out);
      assert p in multiset(Eligible(Collected(visited, pages), base));
    }
  }

  // ---- when the loop ends ----

  /** A walk that goes past 2^30 pages was told, at the jump page, of more pages than that; whatever the server. */
  lemma LongWalkIsBeyondJump(visited: seq<int>, want: nat, pages: Pages)
    requires IsWalk(visited, want, pages) && |visited| > POST_JUMP_PAGE
    ensures exists k :: 0 <= k < |visited| - 1 && IsJump(visited, k, pages)
  {
    WalkInRange(visited, |visited| - 1, want, pages);
    if forall k :: 0 <= k < |visited| - 1 ==> !IsJump(visited, k, pages) {
      CountsDown(visited, |visited| - 1, want, pages);
      assert false;
    }
  }

  lemma WalkInRange(visited: seq<int>, k: nat, want: nat, pages: Pages)
    requires IsWalk(visited, want, pages) && k < |visited|
    ensures visited[k] >= 1
  {
    if k > 0 {
      assert StepsTo(visited, k - 1, want, pages);
    }
  }

  /** Request k asks for the jump page and is told of pages beyond it. */
  ghost predicate IsJump(visited: seq<int>, k: nat, pages: Pages)
    requires k < |visited|
  {
    visited[k] == POST_JUMP_PAGE && BeyondJump(Ask(pages, POST_JUMP_PAGE, k))
  }

  lemma {:induction false} CountsDown(visited: seq<int>, k: nat, want: nat, pages: Pages)
    requires IsWalk(visited, want, pages) && k < |visited|
    requires forall j :: 0 <= j < k ==> !IsJump(visited, j, pages)
    ensures visited[k] <= POST_JUMP_PAGE - k
  {
    if k > 0 {
      CountsDown(visited, k - 1, want, pages);
      assert StepsTo(visited, k - 1, want, pages);
      assert !IsJump(visited, k - 1, pages);
    }
  }

  /** Against one server all walks go the same way. */
  lemma {:induction false} WalksAgree(a: seq<int>, b: seq<int>, want: nat, pages: Pages)
    requires IsWalk(a, want, pages) && IsWalk(b, want, pages) && |a| == |b|
    ensures a == b
  {
    var n := |a| - 1;
    if n > 0 {
      WalkPrefix(a, n, want, pages);
      WalkPrefix(b, n, want, pages);
      WalksAgree(a[..n], b[..n], want, pages);
      assert StepsTo(a, n - 1, want, pages) && StepsTo(b, n - 1, want, pages);
      assert a == a[..n] + [a[n]] && b == b[..n] + [b[n]];
      assert a[n - 1] == a[..n][n - 1] && b[n - 1] == b[..n][n - 1];
    }
  }

  /** The walk stops, or is told at the jump page of no more pages than that: from there it can only count down. */
  ghost predicate Settles(visited: seq<int>, want: nat, pages: Pages)
    requires visited != []
  {
    var last := |visited| - 1;
    || !GoesOn(visited, last, want, pages)
    || (visited[last] == POST_JUMP_PAGE && !BeyondJump(Ask(pages, POST_JUMP_PAGE, last)))
  }

  ghost predicate IsSettledWalk(visited: seq<int>, want: nat, pages: Pages)
  {
    IsWalk(visited, want, pages) && Settles(visited, want, pages)
  }

  /** Against every server the loop ends if and only if its walk settles at some request. */
  lemma PagingEndsIff(pages: Pages, want: nat)
    ensures Ends(pages, want) <==> exists visited :: IsSettledWalk(visited, want, pages)
  {
    if n :| !HasWalk(pages, want, n) {
      LastWalkStops(pages, want, n);
    }
    if visited :| IsSettledWalk(visited, want, pages) {
      SettledEnds(visited, want, pages);
    }
  }

  lemma {:induction false} LastWalkStops(pages: Pages, want: nat, n: nat)
    requires !HasWalk(pages, want, n)
    ensures exists visited :: IsSettledWalk(visited, want, pages)
  {
    if n == 0 {
      assert IsWalk([POST_JUMP_PAGE], want, pages);
      assert false;
    } else if HasWalk(pages, want, n - 1) {
      var visited :| |visited| == n && IsWalk(visited, want, pages);
      if GoesOn(visited, n - 1, want, pages) {
        WalkOn(visited, NextPage(visited[n - 1], Ask(pages, visited[n - 1], n - 1).totalPage), want, pages);
        assert false;
      }
      assert IsSettledWalk(visited, want, pages);
    } else {
      LastWalkStops(pages, want, n - 1);
    }
  }

  lemma SettledEnds(visited: seq<int>, want: nat, pages: Pages)
    requires IsSettledWalk(visited, want, pages)
    ensures Ends(pages, want)
  {
    var k := |visited| - 1;
    if !GoesOn(visited, k, want, pages) {
      StoppedEnds(visited, want, pages);
    } else {
      SaneAnswerEnds(visited, want, pages);
    }
  }

  lemma StoppedEnds(visited: seq<int>, want: nat, pages: Pages)
    requires IsWalk(visited, want, pages) && !GoesOn(visited, |visited| - 1, want, pages)
    ensures !HasWalk(pages, want, |visited|)
  {
    var n := |visited|;
    if HasWalk(pages, want, n) {
      var longer :| |longer| == n + 1 && IsWalk(longer, want, pages);
      WalkPrefix(longer, n, want, pages);
      PrefixGoesOn(longer, n, want, pages);
      WalksAgree(longer[..n], visited, want, pages);
      assert false;
    }
  }

  lemma PrefixGoesOn(visited: seq<int>, n: nat, want: nat, pages: Pages)
    requires IsWalk(visited, want, pages) && 0 < n < |visited|
    ensures GoesOn(visited[..n], n - 1, want, pages)
  {
    assert StepsTo(visited, n - 1, want, pages);
    assert visited[..n][..n] == visited[..n - 1 + 1];
  }

  /** Once told of at most 2^30 pages the loop counts down from there and cannot reach the jump page again. */
  lemma SaneAnswerEnds(visited: seq<int>, want: nat, pages: Pages)
    requires IsWalk(visited, want, pages)
    requires visited[|visited| - 1] == POST_JUMP_PAGE && !BeyondJump(Ask(pages, POST_JUMP_PAGE, |visited| - 1))
    ensures !HasWalk(pages, want, |visited| - 1 + POST_JUMP_PAGE)
  {
    var k := |visited| - 1;
    var n := k + POST_JUMP_PAGE;
    if HasWalk(pages, want, n) {
      var longer :| |longer| == n + 1 && IsWalk(longer, want, pages);
      WalkPrefix(longer, k + 1, want, pages);
      WalksAgree(longer[..k + 1], visited, want, pages);
      assert longer[k] == visited[k];
      WalkInRange(longer, n, want, pages);
      CountsDownFrom(longer, k, n, want, pages);
      assert false;
    }
  }

  lemma {:induction false} CountsDownFrom(visited: seq<int>, k: nat, n: nat, want: nat, pages: Pages)
    requires IsWalk(visited, want, pages) && k < n < |visited|
    requires visited[k] == POST_JUMP_PAGE && !BeyondJump(Ask(pages, POST_JUMP_PAGE, k))
    ensures visited[n] <= POST_JUMP_PAGE - (n - k)
  {
    assert StepsTo(visited, n - 1, want, pages);
    if n > k + 1 {
      CountsDownFrom(visited, k, n - 1, want, pages);
    }
  }

  /** The very first answer suffices: an error, an end of the list, or at most 2^30 pages. */
  lemma FirstAnswerEnds(pages: Pages, want: nat)
    requires !BeyondJump(Ask(pages, POST_JUMP_PAGE, 0))
    ensures Ends(pages, want)
  {
    assert IsSettledWalk([POST_JUMP_PAGE], want, pages);
    PagingEndsIff(pages, want);
  }

  /** An answer that announces more pages, brings no post and reports a page count. */
  predicate BringsNothing(answer: Answer, totalPage: int)
  {
    answer.PageOf? && answer.posts == [] && answer.hasMore == 1 && answer.totalPage == totalPage
  }

  ghost predicate IsBarren(pages: Pages, totalPage: int)
  {
    forall pn, k :: BringsNothing(Ask(pages, pn, k), totalPage)
  }

  lemma {:induction false} NothingCollected(visited: seq<int>, pages: Pages, totalPage: int)
    requires IsBarren(pages, totalPage)
    ensures Collected(visited, pages) == []
  {
    if visited != [] {
      var k := |visited| - 1;
      NothingCollected(visited[..k], pages, totalPage);
      assert BringsNothing(Ask(pages, visited[k], k), totalPage);
    }
  }

  lemma {:induction false} StaysBeyondJump(visited: seq<int>, k: nat, want: nat, pages: Pages, totalPage: int)
    requires IsWalk(visited, want, pages) && k < |visited| && IsBarren(pages, totalPage) && totalPage > POST_JUMP_PAGE
    ensures visited[k] >= POST_JUMP_PAGE
  {
    if k > 0 {
      StaysBeyondJump(visited, k - 1, want, pages, totalPage);
      assert StepsTo(visited, k - 1, want, pages);
      assert BringsNothing(Ask(pages, visited[k - 1], k - 1), totalPage);
    }
  }

  /** Against a server that never gives another reason to stop: if and only if the count is at most 2^30. */
  lemma FixedCountEndsIff(pages: Pages, want: nat, totalPage: int)
    requires IsBarren(pages, totalPage) && want > 0
    ensures Ends(pages, want) <==> totalPage <= POST_JUMP_PAGE
  {
    assert BringsNothing(Ask(pages, POST_JUMP_PAGE, 0), totalPage);
    if totalPage <= POST_JUMP_PAGE {
      FirstAnswerEnds(pages, want);
    } else {
      PagingEndsIff(pages, want);
      forall visited | IsWalk(visited, want, pages)
        ensures !Settles(visited, want, pages)
      {
        var last := |visited| - 1;
        StaysBeyondJump(visited, last, want, pages, totalPage);
        NothingCollected(visited[..last + 1], pages, totalPage);
        assert BringsNothing(Ask(pages, visited[last], last), totalPage);
      }
    }
  }
}
