/** String primitives the tutor's answer check and hint builder rely on:
    an ASCII lower-case map, the whitespace class `\s` restricted to ASCII,
    `trim`, `replace(/\s+/g, ' ')`, `split` on one character, `includes`
    and the option-list regex `/\((.*?)\)/`. */
module Text {

  import opened Optional

  /** ASCII members of the regular-expression class `\s`. */
  predicate IsWhitespace(c: char) {
    c == ' ' || c == '\t' || c == '\n' || c == '\r' || c as int == 0x0B || c as int == 0x0C
  }

  /** Characters that `.` in a regular expression does not match: line feed,
      carriage return, and the line and paragraph separators U+2028, U+2029. */
  predicate IsLineTerminator(c: char) {
    c == '\n' || c == '\r' || c == '\U{2028}' || c == '\U{2029}'
  }

  predicate NoWhitespace(s: string) {
    forall i :: 0 <= i < |s| ==> !IsWhitespace(s[i])
  }

  predicate AllWhitespace(s: string) {
    forall i :: 0 <= i < |s| ==> IsWhitespace(s[i])
  }

  predicate IsUpper(c: char) {
    'A' <= c <= 'Z'
  }

  /** One character of `toLowerCase`: a capital becomes the small letter at
      the same place in the alphabet; everything else is left alone. */
  function LowerChar(c: char): (d: char)
    ensures !IsUpper(d)
    ensures IsWhitespace(d) <==> IsWhitespace(c)
    ensures !IsUpper(c) ==> d == c
    ensures IsUpper(c) ==> 'a' <= d <= 'z' && d as int - 'a' as int == c as int - 'A' as int
  {
    if IsUpper(c) then (c as int + 32) as char else c
  }

  /** `toLowerCase`, on the ASCII letters only. */
  function Lower(s: string): (r: string)
    ensures |r| == |s|
    ensures forall i :: 0 <= i < |s| ==> r[i] == LowerChar(s[i])
  {
    seq(|s|, i requires 0 <= i < |s| => LowerChar(s[i]))
  }

  lemma LowerAppend(a: string, b: string)
    ensures Lower(a + b) == Lower(a) + Lower(b)
  {
  }

  lemma LowerIdempotent(s: string)
    ensures Lower(Lower(s)) == Lower(s)
  {
  }

  lemma LowerOfWhitespace(w: string)
    requires AllWhitespace(w)
    ensures Lower(w) == w
  {
  }

  /** `t` occurs in `s` starting at offset `i`. */
  predicate OccursAt(s: string, t: string, i: int) {
    0 <= i && i + |t| <= |s| && s[i..i + |t|] == t
  }

  /** `s.includes(t)`: `t` occurs somewhere in `s`. */
  predicate Includes(s: string, t: string) {
    exists i :: 0 <= i <= |s| && OccursAt(s, t, i)
  }

  lemma IncludesAt(s: string, t: string, i: int)
    requires OccursAt(s, t, i)
    ensures Includes(s, t)
  {
  }

  /** `t` is absent from `s` when no window of `s` starts and ends as `t` does. */
  lemma NotIncluded(s: string, t: string)
    requires |t| > 0
    requires forall i :: 0 <= i && i + |t| <= |s| ==> s[i] != t[0] || s[i + |t| - 1] != t[|t| - 1]
    ensures !Includes(s, t)
  {
    forall i | 0 <= i <= |s|
      ensures !OccursAt(s, t, i)
    {
      if i + |t| <= |s| {
        assert s[i..i + |t|][0] == s[i];
        assert s[i..i + |t|][|t| - 1] == s[i + |t| - 1];
      }
    }
  }

  lemma IncludesTransitive(s: string, m: string, t: string)
    requires Includes(s, m) && Includes(m, t)
    ensures Includes(s, t)
  {
    var i :| 0 <= i <= |s| && OccursAt(s, m, i);
    var j :| 0 <= j <= |m| && OccursAt(m, t, j);
    forall k | 0 <= k < |t|
      ensures s[i + j + k] == t[k]
    {
      assert s[i..i + |m|][j + k] == m[j + k];
      assert m[j..j + |t|][k] == t[k];
    }
    assert s[i + j..i + j + |t|] == t;
    IncludesAt(s, t, i + j);
  }

  lemma IncludesInContext(a: string, s: string, b: string)
    ensures Includes(a + s + b, s)
  {
    assert (a + s + b)[|a|..|a| + |s|] == s;
    IncludesAt(a + s + b, s, |a|);
  }

  lemma LowerIncludes(s: string, t: string)
    requires Includes(s, t)
    ensures Includes(Lower(s), Lower(t))
  {
    var i :| 0 <= i <= |s| && OccursAt(s, t, i);
    assert Lower(s)[i..i + |t|] == Lower(t);
    IncludesAt(Lower(s), Lower(t), i);
  }

  // ---------------------------------------------------------------- trim

  /** Number of whitespace characters `trimStart` removes. */
  function LeadingWs(s: string): (n: nat)
    ensures n <= |s|
    ensures forall i :: 0 <= i < n ==> IsWhitespace(s[i])
    ensures n < |s| ==> !IsWhitespace(s[n])
  {
    if |s| == 0 || !IsWhitespace(s[0]) then 0 else 1 + LeadingWs(s[1..])
  }

  /** Number of whitespace characters `trimEnd` removes. */
  function TrailingWs(s: string): (n: nat)
    ensures n <= |s|
    ensures forall i :: |s| - n <= i < |s| ==> IsWhitespace(s[i])
    ensures n < |s| ==> !IsWhitespace(s[|s| - n - 1])
  {
    if |s| == 0 || !IsWhitespace(s[|s| - 1]) then 0 else 1 + TrailingWs(s[..|s| - 1])
  }

  lemma LeadingWsUnique(s: string, n: nat)
    requires n <= |s|
    requires forall i :: 0 <= i < n ==> IsWhitespace(s[i])
    requires n < |s| ==> !IsWhitespace(s[n])
    ensures LeadingWs(s) == n
  {
  }

  lemma TrailingWsUnique(s: string, n: nat)
    requires n <= |s|
    requires forall i :: |s| - n <= i < |s| ==> IsWhitespace(s[i])
    requires n < |s| ==> !IsWhitespace(s[|s| - n - 1])
    ensures TrailingWs(s) == n
  {
  }

  function TrimStart(s: string): (r: string)
    ensures |r| <= |s|
    ensures |s| > 0 && IsWhitespace(s[0]) ==> |r| < |s|
    ensures r == s[LeadingWs(s)..]
  {
    s[LeadingWs(s)..]
  }

  function TrimEnd(s: string): (r: string)
    ensures r == s[..|s| - TrailingWs(s)]
  {
    s[..|s| - TrailingWs(s)]
  }

  /** `trim()`: no whitespace at either end, and nothing else removed. */
  function Trim(s: string): (r: string)
    ensures |r| > 0 ==> !IsWhitespace(r[0]) && !IsWhitespace(r[|r| - 1])
    ensures Includes(s, r)
  {
    var t := TrimStart(s);
    var r := TrimEnd(t);
    assert s[LeadingWs(s)..LeadingWs(s) + |r|] == r;
    IncludesAt(s, r, LeadingWs(s));
    r
  }

  // ------------------------------------------------------------ collapse

  /** `replace(/\s+/g, ' ')`: every maximal whitespace run becomes one space. */
  function Collapse(s: string): (r: string)
    ensures |r| <= |s|
    decreases |s|
  {
    if |s| == 0 then []
    else if IsWhitespace(s[0]) then [' '] + Collapse(TrimStart(s))
    else [s[0]] + Collapse(s[1..])
  }

  /** No whitespace but single spaces, and no two spaces in a row. */
  predicate SingleSpaced(s: string) {
    && (forall i :: 0 <= i < |s| && IsWhitespace(s[i]) ==> s[i] == ' ')
    && (forall i :: 0 <= i < |s| - 1 && s[i] == ' ' ==> s[i + 1] != ' ')
  }

  lemma {:induction false} CollapseSingleSpaced(s: string)
    ensures SingleSpaced(Collapse(s))
    ensures |Collapse(s)| > 0 ==> (IsWhitespace(Collapse(s)[0]) <==> IsWhitespace(s[0]))
    decreases |s|
  {
    if |s| == 0 {
    } else if IsWhitespace(s[0]) {
      var t := TrimStart(s);
      CollapseSingleSpaced(t);
      if |t| > 0 {
        assert !IsWhitespace(t[0]);
      }
    } else {
      CollapseSingleSpaced(s[1..]);
    }
  }

  // --------------------------------------------------------------- split

  function IndexOf(s: string, c: char): (i: nat)
    requires c in s
    ensures i < |s| && s[i] == c && c !in s[..i]
  {
    if s[0] == c then 0 else 1 + IndexOf(s[1..], c)
  }

  /** `s.split(sep)` for a one-character separator: always at least one part. */
  function Split(s: string, sep: char): (parts: seq<string>)
    ensures |parts| >= 1
    ensures forall k :: 0 <= k < |parts| ==> sep !in parts[k]
    decreases |s|
  {
    if sep in s then
      var i := IndexOf(s, sep);
      [s[..i]] + Split(s[i + 1..], sep)
    else [s]
  }

  /** `parts.join(sep)`, the inverse of `Split`. */
  function Join(parts: seq<string>, sep: char): string
    requires |parts| >= 1
  {
    if |parts| == 1 then parts[0] else parts[0] + [sep] + Join(parts[1..], sep)
  }

  lemma {:induction false} SplitJoin(s: string, sep: char)
    ensures Join(Split(s, sep), sep) == s
    decreases |s|
  {
    if sep in s {
      var i := IndexOf(s, sep);
      SplitJoin(s[i + 1..], sep);
      assert s == s[..i] + [sep] + s[i + 1..];
    }
  }

  /** The first part of a split: the text before the first `sep`, or all of `s`. */
  function BeforeFirst(s: string, sep: char): (r: string)
    ensures sep !in r
    ensures r <= s
    ensures |r| < |s| ==> s[|r|] == sep
  {
    Split(s, sep)[0]
  }

  /** The first `n` characters, or all of `s` when it is shorter. */
  function Take(s: string, n: nat): (r: string)
    ensures r <= s
    ensures |r| == if |s| <= n then |s| else n
  {
    if |s| <= n then s else s[..n]
  }

  // ------------------------------------------------- the option-list regex

  /** Position of the first `)` at or after `k`, provided no line terminator
      comes first; this is how `(.*?)\)` ends a match. */
  function CloseFrom(s: string, k: nat): (j: Option<nat>)
    requires k <= |s|
    ensures j.Some? ==> k <= j.value < |s| && s[j.value] == ')'
    ensures j.Some? ==> forall m :: k <= m < j.value ==> s[m] != ')' && !IsLineTerminator(s[m])
    ensures j.None? ==> forall b :: k <= b < |s| && s[b] == ')' ==>
                          exists m :: k <= m < b && IsLineTerminator(s[m])
    decreases |s| - k
  {
    if k == |s| then None
    else if s[k] == ')' then Some(k)
    else if IsLineTerminator(s[k]) then None
    else CloseFrom(s, k + 1)
  }

  /** The leftmost match of `/\((.*?)\)/` at or after `i`, as the positions
      of its `(` and `)`. */
  function OpenFrom(s: string, i: nat): (m: Option<(nat, nat)>)
    requires i <= |s|
    ensures m.Some? ==> i <= m.value.0 < m.value.1 < |s|
    ensures m.Some? ==> s[m.value.0] == '(' && s[m.value.1] == ')'
    ensures m.Some? ==> forall k :: m.value.0 < k < m.value.1 ==> s[k] != ')' && !IsLineTerminator(s[k])
    ensures forall a, b :: i <= a < b < |s| && s[a] == '(' && s[b] == ')' && (m.None? || a < m.value.0) ==>
              exists k :: a < k < b && IsLineTerminator(s[k])
    decreases |s| - i
  {
    if i == |s| then None
    else if s[i] == '(' then
      match CloseFrom(s, i + 1)
      case Some(j) => Some((i, j))
      case None => OpenFrom(s, i + 1)
    else OpenFrom(s, i + 1)
  }

  /** No `(` before position `e` can start a match: each `(` there is
      separated by a line terminator from every later `)`. */
  predicate NoMatchBefore(s: string, e: int) {
    forall a, b :: 0 <= a < e && a < b < |s| && s[a] == '(' && s[b] == ')' ==>
      exists k :: a < k < b && IsLineTerminator(s[k])
  }

  /** The option-list regex's captured group: the text between the
      leftmost `(` that closes on its own line and the first `)` after it. */
  function FirstParenGroup(s: string): (g: Option<string>)
    ensures g.Some? ==> ')' !in g.value
    ensures g.Some? ==> forall k :: 0 <= k < |g.value| ==> !IsLineTerminator(g.value[k])
    ensures g.Some? ==> exists a :: OccursAt(s, "(" + g.value + ")", a) && NoMatchBefore(s, a)
    ensures g.None? <==> NoMatchBefore(s, |s|)
  {
    match OpenFrom(s, 0)
    case None => None
    case Some((i, j)) =>
      var g := s[i + 1..j];
      assert s[i..i + |"(" + g + ")"|] == "(" + g + ")";
      assert OccursAt(s, "(" + g + ")", i);
      assert !(exists k :: i < k < j && IsLineTerminator(s[k]));
      Some(g)
  }
}
