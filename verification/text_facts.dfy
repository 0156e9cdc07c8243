/** How `trim` and whitespace collapsing interact with concatenation and
    with substring search. These are the facts behind the answer check's
    indifference to whitespace layout. */
module TextFacts {

  import opened Text

  // ------------------------------------------------------ trim and append

  lemma TrimStartAfterWhitespace(w: string, v: string)
    requires AllWhitespace(w)
    ensures TrimStart(w + v) == TrimStart(v)
  {
    var n := |w| + LeadingWs(v);
    LeadingWsUnique(w + v, n);
    assert (w + v)[n..] == v[LeadingWs(v)..];
  }

  lemma TrimEndBeforeWhitespace(v: string, w: string)
    requires AllWhitespace(w)
    ensures TrimEnd(v + w) == TrimEnd(v)
  {
    var n := |w| + TrailingWs(v);
    TrailingWsUnique(v + w, n);
    assert (v + w)[..|v + w| - n] == v[..|v| - TrailingWs(v)];
  }

  lemma TrimStartAppend(u: string, b: string)
    requires !AllWhitespace(u)
    ensures TrimStart(u + b) == TrimStart(u) + b
  {
    var n := LeadingWs(u);
    LeadingWsUnique(u + b, n);
    assert (u + b)[n..] == u[n..] + b;
  }

  lemma TrimEndPrepend(a: string, u: string)
    requires !AllWhitespace(u)
    ensures TrimEnd(a + u) == a + TrimEnd(u)
  {
    var n := TrailingWs(u);
    TrailingWsUnique(a + u, n);
    assert (a + u)[..|a + u| - n] == a + u[..|u| - n];
  }

  lemma TrimAllWhitespace(w: string)
    requires AllWhitespace(w)
    ensures Trim(w) == []
  {
    LeadingWsUnique(w, |w|);
  }

  lemma AllWhitespaceAppend(a: string, b: string)
    requires AllWhitespace(a) && AllWhitespace(b)
    ensures AllWhitespace(a + b)
  {
  }

  /** Padding with whitespace on either side does not change `trim`. */
  lemma TrimPadding(w1: string, u: string, w2: string)
    requires AllWhitespace(w1) && AllWhitespace(w2)
    ensures Trim(w1 + u + w2) == Trim(u)
  {
    assert w1 + u + w2 == w1 + (u + w2);
    TrimStartAfterWhitespace(w1, u + w2);
    if AllWhitespace(u) {
      AllWhitespaceAppend(u, w2);
      TrimAllWhitespace(u + w2);
      TrimAllWhitespace(u);
    } else {
      TrimStartAppend(u, w2);
      TrimEndBeforeWhitespace(TrimStart(u), w2);
    }
  }

  /** When both sides hold a visible character, `trim` leaves the middle alone. */
  lemma TrimAround(x: string, r: string, y: string)
    requires !AllWhitespace(x) && !AllWhitespace(y)
    ensures Trim(x + r + y) == TrimStart(x) + r + TrimEnd(y)
  {
    assert x + r + y == x + (r + y);
    TrimStartAppend(x, r + y);
    assert TrimStart(x) + (r + y) == (TrimStart(x) + r) + y;
    TrimEndPrepend(TrimStart(x) + r, y);
  }

  // -------------------------------------------------------------- collapse

  lemma CollapseVisibleHead(s: string)
    requires |s| > 0 && !IsWhitespace(s[0])
    ensures Collapse(s) == [s[0]] + Collapse(s[1..])
  {
  }

  lemma CollapseWhitespaceHead(s: string)
    requires |s| > 0 && IsWhitespace(s[0])
    ensures Collapse(s) == [' '] + Collapse(TrimStart(s))
  {
  }

  /** Any non-empty whitespace run collapses exactly like a single space. */
  lemma {:induction false} CollapseRun(a: string, r: string, b: string)
    requires |r| > 0 && AllWhitespace(r)
    ensures Collapse(a + r + b) == Collapse(a + [' '] + b)
    decreases |a|
  {
    if |a| == 0 {
      assert a + r + b == r + b;
      assert a + [' '] + b == [' '] + b;
      TrimStartAfterWhitespace(r, b);
      TrimStartAfterWhitespace([' '], b);
    } else if !IsWhitespace(a[0]) {
      assert (a + r + b)[1..] == a[1..] + r + b;
      assert (a + [' '] + b)[1..] == a[1..] + [' '] + b;
      CollapseRun(a[1..], r, b);
    } else if AllWhitespace(a) {
      AllWhitespaceAppend(a, r);
      AllWhitespaceAppend(a, [' ']);
      assert a + r + b == (a + r) + b;
      assert a + [' '] + b == (a + [' ']) + b;
      TrimStartAfterWhitespace(a + r, b);
      TrimStartAfterWhitespace(a + [' '], b);
    } else {
      assert a + r + b == a + (r + b);
      assert a + [' '] + b == a + ([' '] + b);
      TrimStartAppend(a, r + b);
      TrimStartAppend(a, [' '] + b);
      assert TrimStart(a) + (r + b) == TrimStart(a) + r + b;
      assert TrimStart(a) + ([' '] + b) == TrimStart(a) + [' '] + b;
      CollapseRun(TrimStart(a), r, b);
    }
  }

  /** A whitespace-free prefix survives collapsing unchanged. */
  lemma {:induction false} CollapseKeepsPrefix(t: string, x: string)
    requires NoWhitespace(t) && t <= x
    ensures t <= Collapse(x)
    decreases |t|
  {
    if |t| > 0 {
      assert x[0] == t[0];
      CollapseVisibleHead(x);
      CollapseKeepsPrefix(t[1..], x[1..]);
    }
  }

  /** A whitespace-free prefix of the collapsed text was a prefix before. */
  lemma {:induction false} CollapseReflectsPrefix(t: string, x: string)
    requires NoWhitespace(t) && t <= Collapse(x)
    ensures t <= x
    decreases |t|
  {
    if |t| > 0 {
      assert |x| > 0;
      CollapseSingleSpaced(x);
      assert t[0] == Collapse(x)[0];
      CollapseVisibleHead(x);
      CollapseReflectsPrefix(t[1..], x[1..]);
    }
  }

  lemma PrefixOccurs(t: string, x: string)
    requires t <= x
    ensures OccursAt(x, t, 0)
  {
  }

  lemma OccursShift(c: string, x: string, t: string, i: int)
    requires OccursAt(x, t, i)
    ensures OccursAt(c + x, t, i + |c|)
  {
    assert (c + x)[i + |c|..i + |c| + |t|] == x[i..i + |t|];
  }

  lemma OccursUnshift(y: string, c: string, x: string, t: string, i: int)
    requires y == c + x && OccursAt(y, t, i) && i >= |c|
    ensures OccursAt(x, t, i - |c|)
  {
    assert y[i..i + |t|] == x[i - |c|..i - |c| + |t|];
  }

  /** An occurrence that starts past a head lies in what follows the head. */
  lemma IncludesPastHead(y: string, c: string, x: string, t: string, i: int)
    requires y == c + x && OccursAt(y, t, i) && i >= |c|
    ensures Includes(x, t)
  {
    OccursUnshift(y, c, x, t, i);
    IncludesAt(x, t, i - |c|);
  }

  /** A visible word in a text with a whitespace head lies past that whitespace. */
  lemma KeepPastWhitespaceHead(x: string, t: string, p: int)
    requires |x| > 0 && IsWhitespace(x[0])
    requires NoWhitespace(t) && |t| > 0
    requires OccursAt(x, t, p)
    ensures Includes(TrimStart(x), t)
  {
    var n := LeadingWs(x);
    assert x == x[..n] + TrimStart(x);
    assert x[p] == t[0];
    IncludesPastHead(x, x[..n], TrimStart(x), t, p);
  }

  /** Collapsing whitespace keeps every occurrence of a whitespace-free word. */
  lemma {:induction false} CollapseKeepsWord(x: string, t: string)
    requires NoWhitespace(t) && |t| > 0 && Includes(x, t)
    ensures Includes(Collapse(x), t)
    decreases |x|
  {
    var p :| 0 <= p <= |x| && OccursAt(x, t, p);
    if !IsWhitespace(x[0]) {
      CollapseVisibleHead(x);
      if p == 0 {
        CollapseKeepsPrefix(t, x);
        PrefixOccurs(t, Collapse(x));
        IncludesAt(Collapse(x), t, 0);
      } else {
        assert x == [x[0]] + x[1..];
        IncludesPastHead(x, [x[0]], x[1..], t, p);
        CollapseKeepsWord(x[1..], t);
        IncludesPrefixed([x[0]], Collapse(x[1..]), t);
      }
    } else {
      KeepPastWhitespaceHead(x, t, p);
      CollapseKeepsWord(TrimStart(x), t);
      CollapseWhitespaceHead(x);
      IncludesPrefixed([' '], Collapse(TrimStart(x)), t);
    }
  }

  /** An occurrence survives putting text in front. */
  lemma IncludesPrefixed(c: string, x: string, t: string)
    requires Includes(x, t)
    ensures Includes(c + x, t)
  {
    var q :| 0 <= q <= |x| && OccursAt(x, t, q);
    OccursShift(c, x, t, q);
    IncludesAt(c + x, t, q + |c|);
  }

  /** An occurrence of a whitespace-free word in the collapsed text was there before. */
  lemma {:induction false} CollapseReflectsWord(x: string, t: string)
    requires NoWhitespace(t) && |t| > 0 && Includes(Collapse(x), t)
    ensures Includes(x, t)
    decreases |x|
  {
    var p :| 0 <= p <= |Collapse(x)| && OccursAt(Collapse(x), t, p);
    if !IsWhitespace(x[0]) {
      if p == 0 {
        assert t <= Collapse(x);
        CollapseReflectsPrefix(t, x);
        PrefixOccurs(t, x);
        IncludesAt(x, t, 0);
      } else {
        CollapseVisibleHead(x);
        IncludesPastHead(Collapse(x), [x[0]], Collapse(x[1..]), t, p);
        CollapseReflectsWord(x[1..], t);
        IncludesPrefixed([x[0]], x[1..], t);
        assert x == [x[0]] + x[1..];
      }
    } else {
      CollapseWhitespaceHead(x);
      assert Collapse(x)[p] == t[0];
      IncludesPastHead(Collapse(x), [' '], Collapse(TrimStart(x)), t, p);
      CollapseReflectsWord(TrimStart(x), t);
      IncludesPrefixed(x[..LeadingWs(x)], TrimStart(x), t);
      assert x == x[..LeadingWs(x)] + TrimStart(x);
    }
  }

  /** Collapsing whitespace neither creates nor destroys an occurrence of a
      whitespace-free word. */
  lemma CollapseIncludes(x: string, t: string)
    requires NoWhitespace(t)
    ensures Includes(Collapse(x), t) <==> Includes(x, t)
  {
    if |t| == 0 {
      IncludesAt(Collapse(x), t, 0);
      IncludesAt(x, t, 0);
    } else {
      if Includes(x, t) {
        CollapseKeepsWord(x, t);
      }
      if Includes(Collapse(x), t) {
        CollapseReflectsWord(x, t);
      }
    }
  }

  lemma SliceThree(x: string, i: nat, j: nat)
    requires i <= j <= |x|
    ensures x == x[..i] + x[i..j] + x[j..]
  {
  }

  /** The trimmed text is the slice between the two whitespace runs. */
  lemma TrimSlice(x: string)
    ensures LeadingWs(x) + |Trim(x)| <= |x|
    ensures Trim(x) == x[LeadingWs(x)..LeadingWs(x) + |Trim(x)|]
  {
    var n := LeadingWs(x);
    var y := TrimStart(x);
    var k := |y| - TrailingWs(y);
    assert Trim(x) == TrimEnd(y) == y[..k];
    assert y[..k] == x[n..n + k];
  }

  /** What follows the trimmed text is whitespace. */
  lemma TrimTail(x: string)
    ensures LeadingWs(x) + |Trim(x)| <= |x|
    ensures AllWhitespace(x[LeadingWs(x) + |Trim(x)|..])
  {
    var n := LeadingWs(x);
    var y := x[n..];
    var m := TrailingWs(y);
    assert Trim(x) == y[..|y| - m];
    assert x[n + |Trim(x)|..] == y[|y| - m..];
  }

  /** `trim` cuts a text into leading whitespace, the trimmed text and
      trailing whitespace. */
  lemma TrimDecompose(x: string)
    ensures LeadingWs(x) + |Trim(x)| <= |x|
    ensures x == x[..LeadingWs(x)] + Trim(x) + x[LeadingWs(x) + |Trim(x)|..]
    ensures AllWhitespace(x[..LeadingWs(x)])
    ensures AllWhitespace(x[LeadingWs(x) + |Trim(x)|..])
  {
    TrimSlice(x);
    TrimTail(x);
    SliceThree(x, LeadingWs(x), LeadingWs(x) + |Trim(x)|);
  }

  /** A visible word inside whitespace-padded text lies inside the padding's core. */
  lemma WordInsidePadding(x: string, a: string, b: string, c: string, t: string, p: int)
    requires x == a + b + c
    requires AllWhitespace(a) && AllWhitespace(c)
    requires NoWhitespace(t) && |t| > 0
    requires OccursAt(x, t, p)
    ensures Includes(b, t)
  {
    assert x[p] == t[0];
    assert x[p + |t| - 1] == t[|t| - 1];
    assert p >= |a|;
    assert p + |t| <= |a| + |b|;
    assert b[p - |a|..p - |a| + |t|] == x[p..p + |t|];
    IncludesAt(b, t, p - |a|);
  }

  /** Trimming neither creates nor destroys an occurrence of a whitespace-free word. */
  lemma TrimIncludes(x: string, t: string)
    requires NoWhitespace(t)
    ensures Includes(Trim(x), t) <==> Includes(x, t)
  {
    if Includes(Trim(x), t) {
      IncludesTransitive(x, Trim(x), t);
    }
    if Includes(x, t) && |t| > 0 {
      var p :| 0 <= p <= |x| && OccursAt(x, t, p);
      TrimDecompose(x);
      WordInsidePadding(x, x[..LeadingWs(x)], Trim(x), x[LeadingWs(x) + |Trim(x)|..], t, p);
    }
    if |t| == 0 {
      IncludesAt(Trim(x), t, 0);
    }
  }

  /** Collapsing leaves single-spaced text as it is, so `Collapse` is idempotent. */
  lemma {:induction false} CollapseFixesSingleSpaced(s: string)
    requires SingleSpaced(s)
    ensures Collapse(s) == s
    decreases |s|
  {
    if |s| > 0 {
      CollapseFixesSingleSpaced(s[1..]);
      if IsWhitespace(s[0]) {
        LeadingWsUnique(s, 1);
      }
    }
  }

  /** Splitting text that starts with a separator-free word peels that word off. */
  lemma SplitWord(a: string, sep: char, b: string)
    requires sep !in a
    ensures Split(a + [sep] + b, sep) == [a] + Split(b, sep)
  {
    var s := a + [sep] + b;
    assert s[..|a|] == a && s[|a|] == sep;
    var i := IndexOf(s, sep);
    assert i == |a|;
    assert s[i + 1..] == b;
  }
}
