/** What the paging loop brings of a thread that does not change while it is read: the newest floors of all. */
module TiebaNewest {
  import opened TiebaPosts

  /** A thread's pages, the oldest first. */
  type Site = seq<seq<Post>>

  function Whole(site: Site): seq<Post>
  {
    if site == [] then [] else site[0] + Whole(site[1..])
  }

  /** Older pages hold floors that are no newer and carry no higher ids; within a page any order will do. */
  ghost predicate Ordered(site: Site)
  {
    forall i, j :: 0 <= i < j < |site| ==> NoNewer(site[i], site[j])
  }

  ghost predicate NoNewer(older: seq<Post>, newer: seq<Post>)
  {
    forall p <- older, q <- newer :: p.time <= q.time && p.id <= q.id
  }

  /** Asked for a page, or for one past the end, the server brings it and announces whether there are older ones. */
  function Given(site: Site, pn: int): Answer
    requires site != []
  {
    var page := if pn > |site| then |site| else pn;
    if page < 1 then PageError else PageOf(site[page - 1], if page > 1 then 1 else 0, |site|)
  }

  ghost predicate Serves(pages: Pages, site: Site)
  {
    && 0 < |site| < POST_JUMP_PAGE
    && forall pn, k :: Ask(pages, pn, k) == Given(site, pn)
  }

  /** The page that request k of a walk brings. */
  function PageAt(site: Site, k: nat): int { |site| - k }

  lemma {:induction false} WalkGoesBack(visited: seq<int>, k: nat, want: nat, pages: Pages, site: Site)
    requires Serves(pages, site) && IsWalk(visited, want, pages) && k < |visited|
    ensures 1 <= PageAt(site, k) && visited[k] == if k == 0 then POST_JUMP_PAGE else PageAt(site, k)
  {
    if k > 0 {
      WalkGoesBack(visited, k - 1, want, pages, site);
      assert StepsTo(visited, k - 1, want, pages);
      assert Ask(pages, visited[k - 1], k - 1) == Given(site, visited[k - 1]);
    }
  }

  lemma OneMorePage(visited: seq<int>, k: nat, want: nat, pages: Pages, site: Site)
    requires Serves(pages, site) && IsWalk(visited, want, pages) && k < |visited|
    ensures k < |site|
    ensures Collected(visited[..k + 1], pages) == Collected(visited[..k], pages) + site[|site| - k - 1]
  {
    WalkGoesBack(visited, k, want, pages, site);
    assert visited[..k + 1][..k] == visited[..k];
    assert Ask(pages, visited[k], k) == Given(site, visited[k]);
  }

  lemma OneMoreSuffix(site: Site, k: nat)
    requires k < |site|
    ensures Whole(site[|site| - k - 1..]) == site[|site| - k - 1] + Whole(site[|site| - k..])
  {
    var rest := site[|site| - k - 1..];
    assert rest[0] == site[|site| - k - 1] && rest[1..] == site[|site| - k..];
  }

  /** The first k requests bring exactly the posts of the last k pages. */
  lemma {:induction false} CollectedIsSuffix(visited: seq<int>, k: nat, want: nat, pages: Pages, site: Site)
    requires Serves(pages, site) && IsWalk(visited, want, pages) && k <= |visited|
    ensures k <= |site| && multiset(Collected(visited[..k], pages)) == multiset(Whole(site[|site| - k..]))
  {
    if k > 0 {
      CollectedIsSuffix(visited, k - 1, want, pages, site);
      OneMorePage(visited, k - 1, want, pages, site);
      OneMoreSuffix(site, k - 1);
    }
  }

  lemma {:induction false} WholeSplits(site: Site, n: nat)
    requires n <= |site|
    ensures Whole(site) == Whole(site[..n]) + Whole(site[n..])
  {
    if n > 0 {
      WholeSplits(site[1..], n - 1);
      assert site[..n][1..] == site[1..][..n - 1] && site[1..][n - 1..] == site[n..];
      ConcatThree(site[0], Whole(site[1..][..n - 1]), Whole(site[n..]));
    } else {
      assert site[0..] == site && [] + Whole(site) == Whole(site);
    }
  }

  lemma ConcatThree(a: seq<Post>, b: seq<Post>, c: seq<Post>)
    ensures a + (b + c) == a + b + c
  {
  }

  lemma {:induction false} PageHolding(site: Site, p: Post) returns (i: nat)
    requires p in Whole(site)
    ensures i < |site| && p in site[i]
  {
    if p in site[0] {
      return 0;
    }
    assert p in Whole(site[1..]);
    i := PageHolding(site[1..], p);
    i := i + 1;
  }

  lemma HalvesAreOrdered(site: Site, n: nat)
    requires Ordered(site) && n <= |site|
    ensures NoNewer(Whole(site[..n]), Whole(site[n..]))
  {
    forall p, q | p in Whole(site[..n]) && q in Whole(site[n..])
      ensures p.time <= q.time && p.id <= q.id
    {
      PostsAreOrdered(site, n, p, q);
    }
  }

  lemma PostsAreOrdered(site: Site, n: nat, p: Post, q: Post)
    requires Ordered(site) && n <= |site| && p in Whole(site[..n]) && q in Whole(site[n..])
    ensures p.time <= q.time && p.id <= q.id
  {
    var i := PageHolding(site[..n], p);
    var j := PageHolding(site[n..], q);
    assert NoNewer(site[i], site[n + j]);
  }

  lemma {:induction false} EligibleOfBoth(a: seq<Post>, b: seq<Post>, base: int)
    ensures Eligible(a + b, base) == Eligible(a, base) + Eligible(b, base)
  {
    if b == [] {
      assert a + b == a;
    } else {
      var k := |b| - 1;
      EligibleOfBoth(a, b[..k], base);
      assert (a + b)[..|a| + k] == a + b[..k];
      ConcatThree(Eligible(a, base), Eligible(b[..k], base), if IsNew(b[k], base) then [b[k]] else []);
    }
  }

  /** Older posts cannot contribute: enough newer ones are eligible, or no older one is. */
  lemma OlderDoNotCount(older: seq<Post>, newer: seq<Post>, base: int, n: nat)
    requires NoNewer(older, newer) && (older == [] || |newer| >= n)
    ensures |Eligible(newer, base)| >= n || Eligible(older, base) == []
  {
    EligibleCounts(newer, base);
    EligibleCounts(older, base);
    if q :| q in newer && !IsNew(q, base) {
      assert forall p <- older :: p.id <= q.id;
      NoneEligible(older, base);
    } else {
      assert multiset(Eligible(newer, base)) == multiset(newer);
      assert |multiset(Eligible(newer, base))| == |Eligible(newer, base)| && |multiset(newer)| == |newer|;
      if older == [] {
        assert Eligible(older, base) == [];
      }
    }
  }

  lemma {:induction false} NoneEligible(s: seq<Post>, base: int)
    requires forall p <- s :: !IsNew(p, base)
    ensures Eligible(s, base) == []
  {
    if s != [] {
      NoneEligible(s[..|s| - 1], base);
      assert s[|s| - 1] in s;
    }
  }

  /** The newest of the newer posts are the newest of all, unless older ones are needed. */
  lemma LatestOfBoth(out: seq<Post>, older: seq<Post>, newer: seq<Post>, base: int, n: nat)
    requires NoNewer(older, newer) && (older == [] || |newer| >= n)
    requires LatestOf(out, newer, base, n)
    ensures LatestOf(out, older + newer, base, n)
  {
    EligibleOfBoth(older, newer, base);
    OlderDoNotCount(older, newer, base, n);
    var few, some := multiset(Eligible(older, base)), multiset(Eligible(newer, base));
    assert |few| == |Eligible(older, base)| && |some| == |Eligible(newer, base)|;
    forall x, y | x in multiset(out) && y in few + some - multiset(out)
      ensures y.time <= x.time
    {
      EligibleArePosts(older, base);
      EligibleArePosts(newer, base);
      if y in few {
        assert x in some;
        assert y in older && x in newer;
      } else {
        assert y in some - multiset(out);
      }
    }
  }

  lemma LatestOfPermutation(out: seq<Post>, s: seq<Post>, t: seq<Post>, base: int, n: nat)
    requires multiset(s) == multiset(t) && LatestOf(out, s, base, n)
    ensures LatestOf(out, t, base, n)
  {
    EligibleOfPermutation(s, t, base);
  }

  /** Where the walk stops there are enough posts, or no older page; and it never meets an error. */
  lemma EnoughOrAll(visited: seq<int>, pages: Pages, site: Site, want: nat)
    requires Serves(pages, site) && IsWalk(visited, want, pages) && !GoesOn(visited, |visited| - 1, want, pages)
    ensures |visited| == |site| || (|visited| < |site| && |Collected(visited, pages)| >= want)
    ensures Ask(pages, visited[|visited| - 1], |visited| - 1).PageOf?
  {
    var k := |visited| - 1;
    WalkGoesBack(visited, k, want, pages, site);
    assert Ask(pages, visited[k], k) == Given(site, visited[k]);
    assert visited[..k + 1] == visited;
  }

  lemma WalkIsSuffix(visited: seq<int>, want: nat, pages: Pages, site: Site)
    requires Serves(pages, site) && IsWalk(visited, want, pages)
    ensures |visited| <= |site|
    ensures multiset(Collected(visited, pages)) == multiset(Whole(site[|site| - |visited|..]))
  {
    CollectedIsSuffix(visited, |visited|, want, pages, site);
    assert visited[..|visited|] == visited;
  }

  /** So, however the thread is cut into pages, the newest of the posts collected are the newest above the base. */
  lemma StoppedWalkHasNewest(
    out: seq<Post>, collected: seq<Post>, visited: seq<int>, pages: Pages, site: Site, base: int, want: nat)
    requires Serves(pages, site) && Ordered(site) && IsWalk(visited, want, pages)
    requires !GoesOn(visited, |visited| - 1, want, pages)
    requires collected == Collected(visited, pages) && LatestOf(out, collected, base, want)
    ensures LatestOf(out, Whole(site), base, want)
  {
    EnoughOrAll(visited, pages, site, want);
    WalkIsSuffix(visited, want, pages, site);
    SuffixHasNewest(out, collected, site, |site| - |visited|, base, want);
  }

  lemma SuffixHasNewest(out: seq<Post>, collected: seq<Post>, site: Site, m: nat, base: int, want: nat)
    requires Ordered(site) && m <= |site| && (m == 0 || |collected| >= want)
    requires multiset(collected) == multiset(Whole(site[m..])) && LatestOf(out, collected, base, want)
    ensures LatestOf(out, Whole(site), base, want)
  {
    var older, newer := Whole(site[..m]), Whole(site[m..]);
    assert |multiset(newer)| == |newer| && |multiset(collected)| == |collected|;
    LatestOfPermutation(out, collected, newer, base, want);
    HalvesAreOrdered(site, m);
    LatestOfBoth(out, older, newer, base, want);
    WholeSplits(site, m);
  }

  /** Reading such a thread ends and brings the newest floors of all; nothing is missed behind a page boundary. */
  method NewestOfThread(tid: int, base: int, n: int, pages: Pages, ghost site: Site) returns (r: Latest)
    requires Serves(pages, site) && Ordered(site)
    ensures r == Invalid <==> tid <= 0
    ensures tid > 0 ==> r.Posts? && LatestOf(r.posts, Whole(site), base, Want(n))
  {
    assert Ask(pages, POST_JUMP_PAGE, 0) == Given(site, POST_JUMP_PAGE);
    FirstAnswerEnds(pages, Want(n));
    ghost var visited;
    r, visited := FetchLatestPosts(tid, base, n, pages);
    if r.Posts? {
      StoppedWalkHasNewest(r.posts, Collected(visited, pages), visited, pages, site, base, Want(n));
    } else if r.FetchFailed? {
      NoPageFails(visited, pages, site, Want(n));
    }
  }

  lemma NoPageFails(visited: seq<int>, pages: Pages, site: Site, want: nat)
    requires Serves(pages, site) && IsWalk(visited, want, pages)
    ensures Ask(pages, visited[|visited| - 1], |visited| - 1).PageOf?
  {
    var k := |visited| - 1;
    WalkGoesBack(visited, k, want, pages, site);
    assert Ask(pages, visited[k], k) == Given(site, visited[k]);
  }
}
