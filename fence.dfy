/**
  The fenced-block search of the extractor: Python's
  `re.search(r'```json\n(.*?)\n```', output, re.DOTALL)` and its `group(1)`.

  A match starts at an occurrence of the opener "```json" + newline and ends with
  an occurrence of the closer newline + "```" after it; the body in between may
  hold any character, newlines included (DOTALL). `re.search` takes the leftmost
  start that matches at all, and the lazy `.*?` the shortest body for that start.
 */
module Fence {
  import opened Wrappers

  /** The opening fence without its newline: the case-sensitive tag the source insists on. */
  const OpenerTag: string := "```json"
  const Opener: string := "```json\n"
  const Closer: string := "\n```"

  /** `pat` occurs in `s` starting at index `i`. */
  predicate OccursAt(s: string, pat: string, i: nat) {
    i + |pat| <= |s| && s[i..i + |pat|] == pat
  }

  /** `pat` occurs somewhere in `s`. */
  ghost predicate Contains(s: string, pat: string) {
    exists i: nat :: OccursAt(s, pat, i)
  }

  /** The pattern matches `s` from index `i` with a body of `k` characters. */
  predicate MatchAt(s: string, i: nat, k: nat) {
    OccursAt(s, Opener, i) && OccursAt(s, Closer, i + |Opener| + k)
  }

  /** The match Python's regex engine reports: leftmost start, then shortest body. */
  ghost predicate LeftmostShortest(s: string, i: nat, k: nat) {
    && MatchAt(s, i, k)
    && (forall i': nat, k': nat :: i' < i ==> !MatchAt(s, i', k'))
    && (forall k': nat :: k' < k ==> !MatchAt(s, i, k'))
  }

  /** The first closer at or after `from`. */
  function FindCloser(s: string, from: nat): (r: Option<nat>)
    decreases |s| - from
    ensures r.Some? ==> from <= r.value && OccursAt(s, Closer, r.value)
    ensures r.Some? ==> forall j: nat :: from <= j < r.value ==> !OccursAt(s, Closer, j)
    ensures r.None? ==> forall j: nat :: from <= j ==> !OccursAt(s, Closer, j)
  {
    if |s| < from + |Closer| then None
    else if OccursAt(s, Closer, from) then Some(from)
    else FindCloser(s, from + 1)
  }

  /** The engine's scan over start positions `from`, `from + 1`, ...: the start and body length of the first match. */
  function SearchFrom(s: string, from: nat): (r: Option<(nat, nat)>)
    decreases |s| - from
    ensures r.Some? ==> from <= r.value.0 && MatchAt(s, r.value.0, r.value.1)
    ensures r.Some? ==> forall k': nat :: k' < r.value.1 ==> !MatchAt(s, r.value.0, k')
    ensures r.Some? ==> forall i': nat, k': nat :: from <= i' < r.value.0 ==> !MatchAt(s, i', k')
    ensures r.None? ==> forall i': nat, k': nat :: from <= i' ==> !MatchAt(s, i', k')
  {
    if |s| < from + |Opener| then None
    else if OccursAt(s, Opener, from) then
      match FindCloser(s, from + |Opener|)
      case Some(c) => Some((from, c - from - |Opener|))
      case None => SearchFrom(s, from + 1)
    else SearchFrom(s, from + 1)
  }

  /** `re.search` over the whole string: the start and body length of the match, if any. */
  function FenceMatch(s: string): (r: Option<(nat, nat)>)
    ensures r.Some? ==> LeftmostShortest(s, r.value.0, r.value.1)
    ensures r.None? <==> forall i: nat, k: nat :: !MatchAt(s, i, k)
  {
    SearchFrom(s, 0)
  }

  /** `json_match.group(1)`: the fenced body, if the pattern matches. */
  function FindFence(s: string): (r: Option<string>)
    ensures r.None? <==> forall i: nat, k: nat :: !MatchAt(s, i, k)
  {
    match FenceMatch(s)
    case Some((i, k)) => Some(s[i + |Opener| .. i + |Opener| + k])
    case None => None
  }

  lemma OccursAtChar(s: string, pat: string, i: nat, j: nat)
    requires OccursAt(s, pat, i) && j < |pat|
    ensures s[i + j] == pat[j]
  {
    assert s[i..i + |pat|][j] == s[i + j];
  }

  /** At most one match is the leftmost-shortest one. */
  lemma LeftmostShortestUnique(s: string, i1: nat, k1: nat, i2: nat, k2: nat)
    requires LeftmostShortest(s, i1, k1) && LeftmostShortest(s, i2, k2)
    ensures i1 == i2 && k1 == k2
  {
  }

  /** The body the search captures never contains the closer: the lazy `.*?` stops at the first one. */
  lemma {:induction false} CaptureHasNoCloser(s: string)
    requires FindFence(s).Some?
    ensures !Contains(FindFence(s).value, Closer)
  {
    var (i, k) := FenceMatch(s).value;
    var b := FindFence(s).value;
    assert b == s[i + |Opener| .. i + |Opener| + k];
    if j: nat :| OccursAt(b, Closer, j) {
      var o := i + |Opener|;
      assert |b| == k && j + |Closer| <= k && o + k <= |s|;
      assert b[j .. j + |Closer|] == s[o..o + k][j .. j + |Closer|] == s[o + j .. o + j + |Closer|];
      assert MatchAt(s, i, j);
      assert false;
    }
  }

  /** When some opener has a closer after it, the match starts at the first opener of the string. */
  lemma {:induction false} MatchStartsAtFirstOpener(s: string, i: nat, c: nat)
    requires OccursAt(s, Opener, i)
    requires forall j: nat :: j < i ==> !OccursAt(s, Opener, j)
    requires i + |Opener| <= c && OccursAt(s, Closer, c)
    ensures FenceMatch(s).Some? && FenceMatch(s).value.0 == i
  {
    assert MatchAt(s, i, c - i - |Opener|);
  }

  lemma OpenerBeginsWithTag(s: string, i: nat)
    requires OccursAt(s, Opener, i)
    ensures OccursAt(s, OpenerTag, i)
  {
    assert s[i..i + |OpenerTag|] == s[i..i + |Opener|][..|OpenerTag|];
  }

  /** An opener cannot start strictly inside another opener: "```json\n" overlaps itself nowhere. */
  lemma NoOpenerStraddlingOpener(s: string, q: nat, i: nat)
    requires OccursAt(s, Opener, q)
    requires i < q < i + |Opener|
    ensures !OccursAt(s, Opener, i)
  {
    var d := q - i;
    var m := if d >= 3 then 0 else if d == 2 then 1 else 2;
    OccursAtChar(s, Opener, q, m);
    if OccursAt(s, Opener, i) {
      OccursAtChar(s, Opener, i, d + m);
      assert false;
    }
  }

  /** A closer cannot start strictly inside another closer: newline + "```" overlaps itself nowhere. */
  lemma NoCloserStraddlingCloser(s: string, q: nat, j: nat)
    requires OccursAt(s, Closer, q)
    requires j < q < j + |Closer|
    ensures !OccursAt(s, Closer, j)
  {
    OccursAtChar(s, Closer, q, 0);
    if OccursAt(s, Closer, j) {
      OccursAtChar(s, Closer, j, q - j);
      assert false;
    }
  }

  /**
    Fence round trip: a body placed between the opener and the closer comes back
    unchanged, whatever surrounds it, as long as no opener comes before it and the
    body holds no closer. The body may hold newlines.
   */
  lemma {:induction false} FenceRoundTrip(p: string, b: string, t: string)
    requires !Contains(p, Opener)
    requires !Contains(b, Closer)
    ensures FindFence(p + Opener + b + Closer + t) == Some(b)
  {
    var s := p + Opener + b + Closer + t;
    var i, k := |p|, |b|;
    var c := i + |Opener| + k;
    assert s[..i] == p;
    assert s[i..i + |Opener|] == Opener;
    assert s[i + |Opener|..c] == b;
    assert s[c..c + |Closer|] == Closer;
    assert MatchAt(s, i, k);
    forall i': nat, k': nat | i' < i
      ensures !MatchAt(s, i', k')
    {
      if i' + |Opener| <= i {
        assert s[i'..i' + |Opener|] == p[i'..i' + |Opener|];
        assert !OccursAt(p, Opener, i');
      } else {
        NoOpenerStraddlingOpener(s, i, i');
      }
    }
    forall k': nat | k' < k
      ensures !MatchAt(s, i, k')
    {
      var j := i + |Opener| + k';
      if k' + |Closer| <= k {
        assert s[j..j + |Closer|] == b[k'..k' + |Closer|];
        assert !OccursAt(b, Closer, k');
      } else {
        NoCloserStraddlingCloser(s, c, j);
      }
    }
    var (i0, k0) := FenceMatch(s).value;
    LeftmostShortestUnique(s, i0, k0, i, k);
  }

  /** A tag other than the exact opener contains no opener that starts inside it. */
  lemma NoOpenerInsideVariantTag(tag: string, s: string, i: nat)
    requires tag in {"```JSON\n", "```json \n", "```json\r\n"}
    requires |tag| <= |s| && s[..|tag|] == tag
    requires i < |tag|
    ensures !OccursAt(s, Opener, i)
  {
    var m := if i >= 3 then 0 else if i > 0 then 3 - i else if tag == "```JSON\n" then 3 else 7;
    assert s[i + m] == tag[i + m];
    if OccursAt(s, Opener, i) {
      OccursAtChar(s, Opener, i, m);
      assert false;
    }
  }

  /**
    Exact tag: an upper-case tag, a space before the newline, or a carriage return
    before it opens no fence, so the search finds nothing.
   */
  lemma {:induction false} VariantTagFindsNoFence(tag: string, b: string)
    requires tag in {"```JSON\n", "```json \n", "```json\r\n"}
    requires !Contains(b, OpenerTag)
    ensures FindFence(tag + b + Closer) == None
  {
    var s := tag + b + Closer;
    var e := |tag| + |b|;
    assert s[..|tag|] == tag;
    assert s[e..] == Closer;
    forall i: nat, k: nat
      ensures !MatchAt(s, i, k)
    {
      if i < |tag| {
        NoOpenerInsideVariantTag(tag, s, i);
      } else if i + |OpenerTag| <= e {
        assert s[i..i + |OpenerTag|] == b[i - |tag|..i - |tag| + |OpenerTag|];
        assert !OccursAt(b, OpenerTag, i - |tag|);
        if OccursAt(s, Opener, i) {
          OpenerBeginsWithTag(s, i);
        }
      } else if i < e {
        assert s[e] == '\n';
        if OccursAt(s, Opener, i) {
          OccursAtChar(s, Opener, i, e - i);
          assert false;
        }
      }
    }
  }
}
