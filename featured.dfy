/**
 * The two computations in `loadFeaturedWork` of scripts/script.js: the repositories are sorted in place
 * by star count, most stars first, and the first `limit` are featured; a description longer than six
 * estimated lines (`countLines`, 80 characters a line) expands on hover.
 */
module Featured {
  import opened Wrappers

  /** The fields of a repository that the ordering and the hover rule read. */
  datatype Repo = Repo(name: string, stars: int, description: Option<string>)

  /** Characters assumed per rendered line. */
  const LineWidth := 80
  /** Descriptions estimated at more than this many lines expand on hover. */
  const MaxLines := 6

  /** A string's `length` in JavaScript: its UTF-16 code units, one for a character of the Basic
      Multilingual Plane and two (a surrogate pair) for any other. */
  function Utf16Length(s: string): (n: nat)
    ensures |s| <= n <= 2 * |s|
    ensures n == |s| <==> forall i :: 0 <= i < |s| ==> s[i] as int < 0x1_0000
  {
    if s == [] then 0
    else (if s[0] as int < 0x1_0000 then 1 else 2) + Utf16Length(s[1..])
  }

  /** `countLines`: no description (or an empty one) is 0 lines, otherwise its `length` divided by 80,
      rounded up. */
  function CountLines(description: Option<string>): (lines: nat)
    ensures description.None? ==> lines == 0
    ensures description.Some? ==>
      var len := Utf16Length(description.value);
      LineWidth * lines >= len && (lines > 0 ==> LineWidth * (lines - 1) < len)
  {
    match description
    case None => 0
    case Some(s) => (Utf16Length(s) + LineWidth - 1) / LineWidth
  }

  /** The hover expansion is installed exactly for descriptions whose `length` is over 480. */
  lemma ExpandsExactlyWhenLong(description: Option<string>)
    ensures CountLines(description) > MaxLines <==>
      description.Some? && Utf16Length(description.value) > MaxLines * LineWidth
  {
  }

  /** A character outside the Basic Multilingual Plane counts twice: 470 letters and six such characters
      make a `length` of 482, so the description spans 7 estimated lines and expands. */
  lemma AstralCharsCountTwice(letters: string, astral: string)
    requires |letters| == 470 && forall i :: 0 <= i < |letters| ==> letters[i] as int < 0x1_0000
    requires |astral| == 6 && forall i :: 0 <= i < |astral| ==> astral[i] as int >= 0x1_0000
    ensures |letters + astral| == 476
    ensures Utf16Length(letters + astral) == 482
    ensures CountLines(Some(letters + astral)) == 7
  {
    Utf16Append(letters, astral);
    AllAstral(astral);
  }

  /** `length` adds up over a concatenation. */
  lemma {:induction false} Utf16Append(s: string, t: string)
    ensures Utf16Length(s + t) == Utf16Length(s) + Utf16Length(t)
  {
    if s == [] {
      assert s + t == t;
    } else {
      assert (s + t)[1..] == s[1..] + t;
      Utf16Append(s[1..], t);
    }
  }

  /** A string of characters outside the Basic Multilingual Plane has twice as many code units. */
  lemma {:induction false} AllAstral(s: string)
    requires forall i :: 0 <= i < |s| ==> s[i] as int >= 0x1_0000
    ensures Utf16Length(s) == 2 * |s|
  {
    if s != [] {
      AllAstral(s[1..]);
    }
  }

  /** Most stars first. */
  predicate SortedByStars(s: seq<Repo>)
  {
    forall i, j :: 0 <= i < j < |s| ==> s[i].stars >= s[j].stars
  }

  /** The repositories with exactly `v` stars, in their order. */
  function WithStars(s: seq<Repo>, v: int): (r: seq<Repo>)
    ensures |r| <= |s|
    ensures forall k :: 0 <= k < |r| ==> r[k].stars == v
  {
    if s == [] then []
    else (if s[0].stars == v then [s[0]] else []) + WithStars(s[1..], v)
  }

  /** Equally starred repositories come in the same order in `s` as in `t`. */
  ghost predicate SameTies(s: seq<Repo>, t: seq<Repo>)
  {
    forall v :: WithStars(s, v) == WithStars(t, v)
  }

  lemma {:induction false} WithStarsAppend(s: seq<Repo>, t: seq<Repo>, v: int)
    ensures WithStars(s + t, v) == WithStars(s, v) + WithStars(t, v)
  {
    if s == [] {
      assert s + t == t;
    } else {
      assert (s + t)[1..] == s[1..] + t;
      WithStarsAppend(s[1..], t, v);
    }
  }

  /** Two repositories with different star counts: at most one of them has `v` stars. */
  lemma PairTies(x: Repo, y: Repo, v: int)
    requires x.stars != y.stars
    ensures WithStars([x, y], v) == WithStars([y, x], v)
  {
    assert [x, y] == [x] + [y] && [y, x] == [y] + [x];
    WithStarsAppend([x], [y], v);
    WithStarsAppend([y], [x], v);
  }

  /** Exchanging two neighbours with different star counts keeps the order among equals. */
  lemma SwapKeepsTies(s: seq<Repo>, j: nat)
    requires 0 < j < |s| && s[j - 1].stars != s[j].stars
    ensures SameTies(s[j - 1 := s[j]][j := s[j - 1]], s)
  {
    var x, y := s[j - 1], s[j];
    var p, q := s[..j - 1], s[j + 1..];
    assert s == (p + [x, y]) + q;
    assert s[j - 1 := y][j := x] == (p + [y, x]) + q;
    forall v
      ensures WithStars(s[j - 1 := y][j := x], v) == WithStars(s, v)
    {
      WithStarsAppend(p + [x, y], q, v);
      WithStarsAppend(p, [x, y], v);
      WithStarsAppend(p + [y, x], q, v);
      WithStarsAppend(p, [y, x], v);
      PairTies(x, y, v);
    }
  }

  /** The first `n` repositories are sorted by stars. */
  predicate SortedPrefix(s: seq<Repo>, n: nat)
  {
    forall x, y :: 0 <= x < y < n && y < |s| ==> s[x].stars >= s[y].stars
  }

  /** During the insertion of `s[i]`, now at `j`: the first `i + 1` repositories are sorted except that the
      one at `j` may have more stars than its left neighbours. */
  predicate SortedBut(s: seq<Repo>, i: nat, j: nat)
  {
    forall x, y :: 0 <= x < y <= i && y < |s| && y != j ==> s[x].stars >= s[y].stars
  }

  /** `s` with its cells `j - 1` and `j` exchanged. */
  function Swap(s: seq<Repo>, j: nat): (r: seq<Repo>)
    requires 0 < j < |s|
    ensures |r| == |s| && r[j - 1] == s[j] && r[j] == s[j - 1]
    ensures forall k :: 0 <= k < |s| && k != j - 1 && k != j ==> r[k] == s[k]
  {
    s[j - 1 := s[j]][j := s[j - 1]]
  }

  /** Exchange two neighbouring cells. */
  method SwapDown(a: array<Repo>, j: nat)
    requires 0 < j < a.Length
    modifies a
    ensures a[..] == Swap(old(a[..]), j)
  {
    a[j - 1], a[j] := a[j], a[j - 1];
  }

  /** A swap is a permutation. */
  lemma SwapPermutes(s: seq<Repo>, j: nat)
    requires 0 < j < |s|
    ensures multiset(Swap(s, j)) == multiset(s)
  {
    var p, q := s[..j - 1], s[j + 1..];
    assert s == p + [s[j - 1]] + [s[j]] + q;
    assert Swap(s, j) == p + [s[j]] + [s[j - 1]] + q;
  }

  /** One step of the insertion: moving the inserted repository past a neighbour with fewer stars keeps
      the partial order, the permutation, the order among equals and the unsorted rest. */
  lemma InsertStep(s: seq<Repo>, i: nat, j: nat)
    requires 0 < j <= i < |s| && SortedBut(s, i, j) && s[j - 1].stars < s[j].stars
    ensures SortedBut(Swap(s, j), i, j - 1)
    ensures multiset(Swap(s, j)) == multiset(s)
    ensures SameTies(Swap(s, j), s)
    ensures Swap(s, j)[i + 1..] == s[i + 1..]
  {
    SwapPermutes(s, j);
    SwapKeepsTies(s, j);
  }

  /** The insertion is over when the inserted repository has no more stars than its left neighbour. */
  lemma InsertDone(s: seq<Repo>, i: nat, j: nat)
    requires j <= i < |s| && SortedBut(s, i, j) && (j == 0 || s[j - 1].stars >= s[j].stars)
    ensures SortedPrefix(s, i + 1)
  {
  }

  /** One pass of the insertion sort: move `a[i]` left past every neighbour with fewer stars. */
  method Insert(a: array<Repo>, i: nat)
    requires i < a.Length && SortedPrefix(a[..], i)
    modifies a
    ensures SortedPrefix(a[..], i + 1)
    ensures multiset(a[..]) == multiset(old(a[..]))
    ensures a[i + 1..] == old(a[i + 1..])
    ensures SameTies(a[..], old(a[..]))
  {
    var j := i;
    while j > 0 && a[j - 1].stars < a[j].stars
      invariant 0 <= j <= i
      invariant SortedBut(a[..], i, j)
      invariant multiset(a[..]) == multiset(old(a[..]))
      invariant a[i + 1..] == old(a[i + 1..])
      invariant SameTies(a[..], old(a[..]))
    {
      ghost var before := a[..];
      InsertStep(before, i, j);
      SwapDown(a, j);
      j := j - 1;
    }
    InsertDone(a[..], i, j);
  }

  /** `repos.sort((a, b) => b.stargazers_count - a.stargazers_count)`: most stars first, the repositories
      rearranged in place; the sort is stable, so equally starred repositories keep the listing's order. */
  method SortByStars(a: array<Repo>)
    modifies a
    ensures SortedByStars(a[..])
    ensures multiset(a[..]) == multiset(old(a[..]))
    ensures SameTies(a[..], old(a[..]))
  {
    var i := 0;
    while i < a.Length
      invariant i <= a.Length
      invariant SortedPrefix(a[..], i)
      invariant multiset(a[..]) == multiset(old(a[..]))
      invariant SameTies(a[..], old(a[..]))
    {
      Insert(a, i);
      i := i + 1;
    }
  }

  /** In a list sorted by stars, whatever lies past position `n` has no more stars than anything before. */
  lemma SortedPrefixIsTop(s: seq<Repo>, n: nat)
    requires SortedByStars(s) && n <= |s|
    ensures forall r: Repo, f: Repo :: r in multiset(s[n..]) && f in s[..n] ==> r.stars <= f.stars
  {
    forall r: Repo, f: Repo | r in multiset(s[n..]) && f in s[..n]
      ensures r.stars <= f.stars
    {
      var x :| 0 <= x < n && s[..n][x] == f;
      var y :| 0 <= y < |s| - n && s[n..][y] == r;
      assert s[x] == f && s[n + y] == r;
    }
  }

  /** The featured repositories: sort a copy of the listing by stars and keep the first `limit` (6 when
      the caller gives none). Among equally starred repositories, the ones earliest in the listing are
      featured. */
  method TopByStars(repos: seq<Repo>, limit: nat) returns (featured: seq<Repo>)
    ensures |featured| == if limit < |repos| then limit else |repos|
    ensures SortedByStars(featured)
    ensures multiset(featured) <= multiset(repos)
    ensures forall r: Repo, f: Repo :: r in multiset(repos) - multiset(featured) && f in featured ==> r.stars <= f.stars
    ensures forall v :: WithStars(featured, v) <= WithStars(repos, v)
  {
    var a := new Repo[|repos|](i requires 0 <= i < |repos| => repos[i]);
    assert a[..] == repos;
    SortByStars(a);
    var n := if limit < a.Length then limit else a.Length;
    featured := a[..n];
    CutSorted(repos, a[..], n);
  }

  /** Cutting a stable sort of `repos` after `n` keeps the `n` most starred, the earliest first among
      equals. */
  lemma CutSorted(repos: seq<Repo>, sorted: seq<Repo>, n: nat)
    requires SortedByStars(sorted) && multiset(sorted) == multiset(repos) && SameTies(sorted, repos)
    requires n <= |sorted|
    ensures SortedByStars(sorted[..n])
    ensures multiset(sorted[..n]) <= multiset(repos)
    ensures forall r: Repo, f: Repo :: r in multiset(repos) - multiset(sorted[..n]) && f in sorted[..n] ==> r.stars <= f.stars
    ensures forall v :: WithStars(sorted[..n], v) <= WithStars(repos, v)
  {
    var featured, rest := sorted[..n], sorted[n..];
    assert sorted == featured + rest;
    assert multiset(repos) - multiset(featured) == multiset(rest);
    SortedPrefixIsTop(sorted, n);
    forall v
      ensures WithStars(featured, v) <= WithStars(repos, v)
    {
      WithStarsAppend(featured, rest, v);
    }
  }
}
