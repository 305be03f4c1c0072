/**
 * The badge image rewrite in `loadAchievements` of scripts/script.js: a badge whose image points at a
 * github.com page (and not already at raw.githubusercontent.com) is sent to the raw-content host instead,
 * by replacing the first "github.com" and then the first "/blob/". JavaScript's `includes` and
 * `String.prototype.replace` with a string pattern are written out as `Contains` and `ReplaceFirst`.
 */
module Badges {
  import opened Wrappers

  const GitHubHost := "github.com"
  const RawHost := "raw.githubusercontent.com"
  const BlobSegment := "/blob/"

  /** `pat` occurs in `s` at index `i`. */
  predicate IsAt(s: string, pat: string, i: nat)
  {
    i + |pat| <= |s| && s[i..i + |pat|] == pat
  }

  /** `s.includes(pat)`. */
  predicate Contains(s: string, pat: string)
  {
    exists i: nat | i <= |s| :: IsAt(s, pat, i)
  }

  /** The first occurrence of `pat` in `s` at or after `from`. */
  function FindFrom(s: string, pat: string, from: nat): (r: Option<nat>)
    ensures r.Some? ==> from <= r.value && IsAt(s, pat, r.value) &&
                        forall j :: from <= j < r.value ==> !IsAt(s, pat, j)
    ensures r.None? ==> forall j :: from <= j ==> !IsAt(s, pat, j)
    decreases |s| - from
  {
    if from + |pat| > |s| then None
    else if IsAt(s, pat, from) then Some(from)
    else FindFrom(s, pat, from + 1)
  }

  /** `s.replace(pat, rep)`: the first occurrence of `pat` becomes `rep`; without one, `s` is unchanged.
      JavaScript also expands the patterns `$&`, `$$`, `` $` `` and `$'` in `rep`; this is the replacement
      for a `rep` without `$`, which both replacements of the badge rewrite are. */
  function ReplaceFirst(s: string, pat: string, rep: string): (r: string)
    ensures !Contains(s, pat) ==> r == s
    ensures Contains(s, pat) ==> |r| == |s| - |pat| + |rep|
  {
    match FindFrom(s, pat, 0)
    case None => s
    case Some(i) => s[..i] + rep + s[i + |pat|..]
  }

  /** The replacement happens at the first occurrence: the text before it is kept, the occurrence becomes
      `rep`, and the text after it is kept. */
  lemma ReplaceFirstAt(s: string, pat: string, rep: string, i: nat)
    requires IsAt(s, pat, i)
    requires forall j: nat :: j < i ==> !IsAt(s, pat, j)
    ensures ReplaceFirst(s, pat, rep) == s[..i] + rep + s[i + |pat|..]
  {
    var r := FindFrom(s, pat, 0);
    assert r == Some(i);
  }

  /** Replacing an occurrence of `pat` puts `rep` where it was. */
  lemma ReplaceInserts(s: string, pat: string, rep: string)
    requires Contains(s, pat)
    ensures Contains(ReplaceFirst(s, pat, rep), rep)
  {
    var i := FindFrom(s, pat, 0).value;
    var r := ReplaceFirst(s, pat, rep);
    assert r[i..i + |rep|] == rep;
    assert IsAt(r, rep, i);
  }

  /** Splicing `rep` over the occurrence of `pat` at `q` keeps the occurrence of `w` at `p` when they do
      not overlap, which holds when `w` is at least as long as `pat` and holds neither the first nor the
      last character of `pat`. */
  lemma SpliceKeeps(s: string, pat: string, rep: string, w: string, p: nat, q: nat)
    requires IsAt(s, w, p) && IsAt(s, pat, q) && 0 < |pat| <= |w|
    requires pat[0] !in w && pat[|pat| - 1] !in w
    ensures Contains(s[..q] + rep + s[q + |pat|..], w)
  {
    var r := s[..q] + rep + s[q + |pat|..];
    if q + |pat| <= p {
      var p' := p - |pat| + |rep|;
      assert r[p'..p' + |w|] == s[p..p + |w|];
      assert IsAt(r, w, p');
    } else if p + |w| <= q {
      assert r[p..p + |w|] == s[p..p + |w|];
      assert IsAt(r, w, p);
    } else {
      // overlapping: s[q] or s[q + |pat| - 1] would lie inside `w`
      assert false;
    }
  }

  /** Replacing the first `pat` cannot remove an occurrence of such a `w`. */
  lemma ReplaceKeeps(s: string, pat: string, rep: string, w: string)
    requires Contains(s, w) && 0 < |pat| <= |w|
    requires pat[0] !in w && pat[|pat| - 1] !in w
    ensures Contains(ReplaceFirst(s, pat, rep), w)
  {
    var p: nat :| p <= |s| && IsAt(s, w, p);
    var f := FindFrom(s, pat, 0);
    if f.Some? {
      var q := f.value;
      assert ReplaceFirst(s, pat, rep) == s[..q] + rep + s[q + |pat|..];
      SpliceKeeps(s, pat, rep, w, p, q);
    } else {
      assert ReplaceFirst(s, pat, rep) == s;
    }
  }

  /** The rewrite applied to each badge's image source. A source that already names the raw-content
      host, or does not name github.com, is used as it is. */
  function RewriteBadgeSrc(src: string): (r: string)
    ensures Contains(src, RawHost) ==> r == src
    ensures !Contains(src, GitHubHost) ==> r == src
    ensures r != src ==> Contains(r, RawHost)
  {
    if Contains(src, GitHubHost) && !Contains(src, RawHost) then
      RewrittenNamesRawHost(src);
      ReplaceFirst(ReplaceFirst(src, GitHubHost, RawHost), BlobSegment, "/")
    else src
  }

  /** Both replacements of the rewrite, applied to a source naming github.com, leave a source naming the
      raw-content host: the first puts it in, and removing "/blob/" cannot break it, as it has no "/". */
  lemma RewrittenNamesRawHost(src: string)
    requires Contains(src, GitHubHost)
    ensures Contains(ReplaceFirst(ReplaceFirst(src, GitHubHost, RawHost), BlobSegment, "/"), RawHost)
  {
    ReplaceInserts(src, GitHubHost, RawHost);
    assert BlobSegment[0] == '/' && BlobSegment[|BlobSegment| - 1] == '/';
    assert '/' !in RawHost;
    ReplaceKeeps(ReplaceFirst(src, GitHubHost, RawHost), BlobSegment, "/", RawHost);
  }

  /** A source is left alone unless it names github.com and not the raw-content host, and the result
      names the raw-content host exactly when the source named either host. */
  lemma RewriteNamesRawHost(src: string)
    ensures !(Contains(src, GitHubHost) && !Contains(src, RawHost)) ==> RewriteBadgeSrc(src) == src
    ensures Contains(RewriteBadgeSrc(src), RawHost) <==> Contains(src, GitHubHost) || Contains(src, RawHost)
  {
    if Contains(src, GitHubHost) && !Contains(src, RawHost) {
      RewrittenNamesRawHost(src);
    }
  }

  /** Rewriting twice is rewriting once: a rewritten source already names the raw-content host. */
  lemma RewriteIdempotent(src: string)
    ensures RewriteBadgeSrc(RewriteBadgeSrc(src)) == RewriteBadgeSrc(src)
  {
    RewriteNamesRawHost(src);
  }
}
