// The topic matcher (`IEventBus::matchesTopic`). Topics and patterns are
// split into segments on '/'; in a pattern, the segment "*" matches exactly
// one topic segment and the segment "**" matches all remaining topic
// segments, zero or more.
//
// Modelling choices the interface leaves open: "**" is honoured only as the
// final segment of a pattern (a pattern with "**" anywhere else matches no
// topic), the pattern "a/**" also matches the topic "a", and the empty
// pattern matches nothing. Matching is case-sensitive, with no normalisation.
module Topics {

  const Separator: char := '/'
  const SingleLevel: string := "*"
  const MultiLevel: string := "**"

  /** The segments of a topic or pattern: the maximal runs between separators. */
  function Split(s: string): (segs: seq<string>)
    ensures |segs| >= 1
    ensures forall i :: 0 <= i < |segs| ==> Separator !in segs[i]
    ensures Join(segs) == s
  {
    if s == [] then [""]
    else
      var rest := Split(s[1..]);
      if s[0] == Separator then
        assert ([""] + rest)[1..] == rest;
        [""] + rest
      else
        var segs := [[s[0]] + rest[0]] + rest[1..];
        assert segs[1..] == rest[1..];
        assert s == [s[0]] + s[1..];
        segs
  }

  /** The inverse of `Split`: the segments with a separator between each two. */
  function Join(segs: seq<string>): string
    requires |segs| >= 1
  {
    if |segs| == 1 then segs[0] else segs[0] + [Separator] + Join(segs[1..])
  }

  /** Segments free of separators are what `Split` recovers from their join. */
  lemma {:induction false} SplitJoin(segs: seq<string>)
    requires |segs| >= 1
    requires forall i :: 0 <= i < |segs| ==> Separator !in segs[i]
    ensures Split(Join(segs)) == segs
  {
    if |segs| == 1 {
      SplitNoSeparator(segs[0]);
    } else {
      SplitJoin(segs[1..]);
      SplitPrepend(segs[0], Join(segs[1..]));
    }
  }

  /** A string without separators is a single segment. */
  lemma SplitNoSeparator(s: string)
    requires Separator !in s
    ensures Split(s) == [s]
  {
  }

  /** Putting a separator-free segment and a separator in front of a string adds one segment. */
  lemma {:induction false} SplitPrepend(seg: string, s: string)
    requires Separator !in seg
    ensures Split(seg + [Separator] + s) == [seg] + Split(s)
  {
    if seg == [] {
      assert seg + [Separator] + s == [Separator] + s;
      assert ([Separator] + s)[1..] == s;
    } else {
      var whole := seg + [Separator] + s;
      assert whole[0] == seg[0];
      assert whole[1..] == seg[1..] + [Separator] + s;
      SplitPrepend(seg[1..], s);
      assert [seg[0]] + seg[1..] == seg;
    }
  }

  /** Two strings with the same segments are the same string. */
  lemma SplitInjective(a: string, b: string)
    requires Split(a) == Split(b)
    ensures a == b
  {
  }

  /** Segment-wise matching of topic segments `t` against pattern segments `p`. */
  predicate Match(t: seq<string>, p: seq<string>)
  {
    if p == [] then t == []
    else if p[0] == MultiLevel then |p| == 1
    else t != [] && (p[0] == SingleLevel || p[0] == t[0]) && Match(t[1..], p[1..])
  }

  /** `matchesTopic(topic, pattern)`. */
  predicate MatchesTopic(topic: string, pattern: string)
  {
    pattern != "" && Match(Split(topic), Split(pattern))
  }

  /** A non-"**" pattern segment accepts a topic segment: "*" accepts any, a literal only itself. */
  predicate SegmentAccepts(ts: string, ps: string)
  {
    ps == SingleLevel || ps == ts
  }

  /** The segments of `p` before `n` accept the corresponding segments of `t`. */
  predicate PrefixAccepts(t: seq<string>, p: seq<string>, n: nat)
    requires n <= |t| && n <= |p|
  {
    forall i :: 0 <= i < n ==> SegmentAccepts(t[i], p[i])
  }

  /**
   * Reference definition of matching, by position: without a final "**" the
   * topic has as many segments as the pattern and each is accepted; with a
   * final "**" the topic has at least the segments before it and those are
   * accepted. "**" in any other place makes the pattern match nothing.
   */
  predicate MatchSpec(t: seq<string>, p: seq<string>)
  {
    if |p| > 0 && p[|p| - 1] == MultiLevel then
      var n := |p| - 1;
      MultiLevel !in p[..n] && n <= |t| && PrefixAccepts(t, p, n)
    else
      MultiLevel !in p && |t| == |p| && PrefixAccepts(t, p, |p|)
  }

  /** The recursive matcher agrees with the reference definition on all inputs. */
  lemma {:induction false} MatchIsSpec(t: seq<string>, p: seq<string>)
    ensures Match(t, p) <==> MatchSpec(t, p)
  {
    if p == [] {
    } else if p[0] == MultiLevel {
      assert MultiLevel in p[..|p| - 1] || |p| == 1;
    } else if t == [] {
      assert MultiLevel in p || p[|p| - 1] != MultiLevel || |p| > 1;
    } else {
      MatchIsSpec(t[1..], p[1..]);
      var t', p' := t[1..], p[1..];
      assert p == [p[0]] + p';
      if |p'| > 0 && p'[|p'| - 1] == MultiLevel {
        assert p[..|p| - 1] == [p[0]] + p'[..|p'| - 1];
      }
      if |t| == |p| && PrefixAccepts(t, p, |p|) {
        assert PrefixAccepts(t', p', |p'|) by {
          forall i | 0 <= i < |p'| ensures SegmentAccepts(t'[i], p'[i]) {
            assert SegmentAccepts(t[i + 1], p[i + 1]);
          }
        }
      }
      if |p| > 0 && p[|p| - 1] == MultiLevel && |p| - 1 <= |t| && PrefixAccepts(t, p, |p| - 1) {
        assert PrefixAccepts(t', p', |p'| - 1) by {
          forall i | 0 <= i < |p'| - 1 ensures SegmentAccepts(t'[i], p'[i]) {
            assert SegmentAccepts(t[i + 1], p[i + 1]);
          }
        }
      }
      if Match(t, p) {
        assert SegmentAccepts(t[0], p[0]);
        forall i | 1 <= i < |p| && i < |t| && (p[|p| - 1] != MultiLevel || i < |p| - 1)
          ensures SegmentAccepts(t[i], p[i])
        {
          assert SegmentAccepts(t'[i - 1], p'[i - 1]);
        }
      }
    }
  }

  /** A "*" segment matches exactly one further topic segment. */
  lemma SingleLevelWildcard(t: seq<string>, prefix: seq<string>)
    requires MultiLevel !in prefix
    ensures Match(t, prefix + [SingleLevel]) <==> |t| == |prefix| + 1 && Match(t[..|prefix|], prefix)
  {
    var p := prefix + [SingleLevel];
    MatchIsSpec(t, p);
    assert p[..|prefix|] == prefix;
    if |t| == |prefix| + 1 {
      MatchIsSpec(t[..|prefix|], prefix);
      if Match(t[..|prefix|], prefix) {
        assert PrefixAccepts(t, p, |p|) by {
          assert forall i :: 0 <= i < |prefix| ==> SegmentAccepts(t[..|prefix|][i], prefix[i]);
        }
      }
      if Match(t, p) {
        assert PrefixAccepts(t[..|prefix|], prefix, |prefix|) by {
          assert forall i :: 0 <= i < |prefix| ==> SegmentAccepts(t[i], p[i]);
        }
      }
    }
  }

  /** A final "**" segment matches the topics that extend a match of the segments before it by zero or more segments. */
  lemma MultiLevelWildcard(t: seq<string>, prefix: seq<string>)
    requires MultiLevel !in prefix
    ensures Match(t, prefix + [MultiLevel]) <==> |t| >= |prefix| && Match(t[..|prefix|], prefix)
  {
    var p := prefix + [MultiLevel];
    MatchIsSpec(t, p);
    assert p[..|prefix|] == prefix;
    if |t| >= |prefix| {
      MatchIsSpec(t[..|prefix|], prefix);
      if Match(t[..|prefix|], prefix) {
        assert PrefixAccepts(t, p, |prefix|) by {
          assert forall i :: 0 <= i < |prefix| ==> SegmentAccepts(t[..|prefix|][i], prefix[i]);
        }
      }
      if Match(t, p) {
        assert PrefixAccepts(t[..|prefix|], prefix, |prefix|) by {
          assert forall i :: 0 <= i < |prefix| ==> SegmentAccepts(t[i], p[i]);
        }
      }
    }
  }

  /** "**" anywhere but the final segment makes a pattern match no topic. */
  lemma NonTrailingMultiLevel(t: seq<string>, p: seq<string>, k: nat)
    requires k < |p| - 1 && p[k] == MultiLevel
    ensures !Match(t, p)
  {
    MatchIsSpec(t, p);
    if p[|p| - 1] == MultiLevel {
      assert p[..|p| - 1][k] == MultiLevel;
    }
  }

  /** A pattern without wildcard segments matches only the identical topic. */
  lemma LiteralPattern(topic: string, pattern: string)
    requires pattern != ""
    requires forall i :: 0 <= i < |Split(pattern)| ==> Split(pattern)[i] != SingleLevel && Split(pattern)[i] != MultiLevel
    ensures MatchesTopic(topic, pattern) <==> topic == pattern
  {
    var t, p := Split(topic), Split(pattern);
    MatchIsSpec(t, p);
    assert MultiLevel !in p;
    if Match(t, p) {
      assert t == p by {
        forall i | 0 <= i < |p| ensures t[i] == p[i] {
          assert SegmentAccepts(t[i], p[i]);
        }
      }
      SplitInjective(topic, pattern);
    }
  }

  // Example: "orders/created" matches "orders/*".
  lemma SingleLevelExample(topic: string, pattern: string)
    requires topic == "orders/created" && pattern == "orders/*"
    ensures MatchesTopic(topic, pattern)
  {
    SplitSegments(["orders", "created"], topic);
    SplitSegments(["orders", "*"], pattern);
    assert Match(["orders", "created"], ["orders", "*"]);
  }

  // Example: "orders/created/urgent" does not match "orders/*".
  lemma SingleLevelIsOneSegmentExample(topic: string, pattern: string)
    requires topic == "orders/created/urgent" && pattern == "orders/*"
    ensures !MatchesTopic(topic, pattern)
  {
    SplitSegments(["orders", "created", "urgent"], topic);
    SplitSegments(["orders", "*"], pattern);
    assert !Match(["orders", "created", "urgent"], ["orders", "*"]);
  }

  // Example: "orders/created/urgent" matches "orders/**".
  lemma MultiLevelExample(topic: string, pattern: string)
    requires topic == "orders/created/urgent" && pattern == "orders/**"
    ensures MatchesTopic(topic, pattern)
  {
    SplitSegments(["orders", "created", "urgent"], topic);
    SplitSegments(["orders", "**"], pattern);
    assert Match(["orders", "created", "urgent"], ["orders", "**"]);
  }

  // Example: a final "**" also matches when nothing follows its prefix,
  // so "orders" matches "orders/**".
  lemma MultiLevelEmptyRestExample(topic: string, pattern: string)
    requires topic == "orders" && pattern == "orders/**"
    ensures MatchesTopic(topic, pattern)
  {
    SplitSegments(["orders"], topic);
    SplitSegments(["orders", "**"], pattern);
    assert Match(["orders"], ["orders", "**"]);
  }

  /** Helper: the segments of a string written as a join of separator-free segments. */
  lemma SplitSegments(segs: seq<string>, s: string)
    requires |segs| >= 1 && Join(segs) == s
    requires forall i :: 0 <= i < |segs| ==> Separator !in segs[i]
    ensures Split(s) == segs
  {
    SplitJoin(segs);
  }
}
