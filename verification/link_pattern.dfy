/**
 The MARKDOWN_LINK pattern `\[([^\]]*)\]\(([^)]+)\)` and the way
 `java.util.regex.Matcher.find()` walks a line with it.

 The pattern is deterministic: `[^\]]*` can only stop at the first `]`
 after the opening `[`, and `[^)]+` can only stop at the first `)` after
 the `(`, so backtracking never yields a second match from the same start
 index. The hand-coded scanner MatchAt is therefore exact: its own contract says
 every match it returns is a span of the form `[` text `](` target `)`, and
 MatchAtComplete shows it returns every such span.
 */
module LinkPattern {
  import opened Options
  import opened Strings

  /** One match: the span [start, end) of the line, group 1 (text) and group 2 (target). */
  datatype LinkMatch = LinkMatch(start: nat, end: nat, text: string, target: string)

  /** The characters a match with these groups covers. */
  function Render(text: string, target: string): string {
    "[" + text + "](" + target + ")"
  }

  /** What the two character classes allow: no `]` in the text, a non-empty target without `)`. */
  predicate WellFormedGroups(text: string, target: string) {
    ']' !in text && |target| > 0 && ')' !in target
  }

  /** `m` is a match of the pattern inside `line`, independent of how it was found. */
  predicate IsMatchIn(line: string, m: LinkMatch) {
    && m.start <= m.end <= |line|
    && WellFormedGroups(m.text, m.target)
    && line[m.start..m.end] == Render(m.text, m.target)
  }

  /** Cursor offset `cursor` lies in the span: `m.start() <= cursor && m.end() > cursor`. */
  predicate Contains(m: LinkMatch, cursor: int) {
    m.start <= cursor < m.end
  }

  /** The match of the pattern that begins exactly at index `i`, if any. */
  function MatchAt(line: string, i: nat): (r: Option<LinkMatch>)
    ensures r.Some? ==> r.value.start == i && i < r.value.end && IsMatchIn(line, r.value)
  {
    if i < |line| && line[i] == '[' then
      match IndexOf(line, ']', i + 1)
      case None => None
      case Some(j) =>
        if j + 1 < |line| && line[j + 1] == '(' then
          match IndexOf(line, ')', j + 2)
          case None => None
          case Some(k) =>
            if k > j + 2 then
              SpanIsRender(line, i, j, k);
              Some(LinkMatch(i, k + 1, line[i + 1..j], line[j + 2..k]))
            else None
        else None
    else None
  }

  /** Where the delimiters and the two groups sit inside a rendered match. */
  lemma RenderLayout(t: string, g: string)
    ensures |Render(t, g)| == |t| + |g| + 4
    ensures Render(t, g)[0] == '['
    ensures forall p :: 0 <= p < |t| ==> Render(t, g)[1 + p] == t[p]
    ensures Render(t, g)[1 + |t|] == ']' && Render(t, g)[2 + |t|] == '('
    ensures forall p :: 0 <= p < |g| ==> Render(t, g)[3 + |t| + p] == g[p]
    ensures Render(t, g)[3 + |t| + |g|] == ')'
  {
  }

  /** A span delimited by `[`, `](` and `)` is the rendering of the two pieces between them. */
  lemma SpanIsRender(line: string, i: nat, j: nat, k: nat)
    requires i < j && j + 2 <= k < |line|
    requires line[i] == '[' && line[j] == ']' && line[j + 1] == '(' && line[k] == ')'
    ensures line[i..k + 1] == Render(line[i + 1..j], line[j + 2..k])
  {
    var t, g := line[i + 1..j], line[j + 2..k];
    var span, r := line[i..k + 1], Render(t, g);
    RenderLayout(t, g);
    assert |span| == |r|;
    forall p | 0 <= p < |span| ensures span[p] == r[p] {
      if 1 <= p < 1 + |t| {
        assert span[p] == t[p - 1];
      } else if 3 + |t| <= p < 3 + |t| + |g| {
        assert span[p] == g[p - 3 - |t|];
      }
    }
  }

  /** The characters of a match's span are those of its rendering. */
  lemma SpanChars(line: string, m: LinkMatch)
    requires IsMatchIn(line, m)
    ensures m.end == m.start + |m.text| + |m.target| + 4
    ensures forall p :: 0 <= p < m.end - m.start ==> line[m.start + p] == Render(m.text, m.target)[p]
  {
    var span := line[m.start..m.end];
    RenderLayout(m.text, m.target);
    forall p | 0 <= p < m.end - m.start ensures line[m.start + p] == Render(m.text, m.target)[p] {
      assert line[m.start + p] == span[p];
    }
  }

  /** Reading a match back out of the line, character by character. */
  lemma MatchChars(line: string, m: LinkMatch)
    requires IsMatchIn(line, m)
    ensures m.end == m.start + |m.text| + |m.target| + 4
    ensures line[m.start] == '['
    ensures forall p :: 0 <= p < |m.text| ==> line[m.start + 1 + p] == m.text[p]
    ensures line[m.start + 1 + |m.text|] == ']' && line[m.start + 2 + |m.text|] == '('
    ensures forall p :: 0 <= p < |m.target| ==> line[m.start + 3 + |m.text| + p] == m.target[p]
    ensures line[m.start + 3 + |m.text| + |m.target|] == ')'
  {
    var i, t, g := m.start, m.text, m.target;
    var r := Render(t, g);
    SpanChars(line, m);
    RenderLayout(t, g);
    assert line[i + 0] == r[0];
    assert line[i + (1 + |t|)] == r[1 + |t|];
    assert line[i + (2 + |t|)] == r[2 + |t|];
    assert line[i + (3 + |t| + |g|)] == r[3 + |t| + |g|];
    forall p | 0 <= p < |t| ensures line[i + 1 + p] == t[p] {
      assert line[i + (1 + p)] == r[1 + p];
    }
    forall p | 0 <= p < |g| ensures line[i + 3 + |t| + p] == g[p] {
      assert line[i + (3 + |t| + p)] == r[3 + |t| + p];
    }
  }

  /** The scanner's search for `]` stops right after the text group. */
  lemma TextEndFound(line: string, m: LinkMatch)
    requires IsMatchIn(line, m)
    ensures IndexOf(line, ']', m.start + 1) == Some(m.start + 1 + |m.text|)
    ensures line[m.start + 1..m.start + 1 + |m.text|] == m.text
  {
    var i, t := m.start, m.text;
    MatchChars(line, m);
    forall p | i + 1 <= p < i + 1 + |t| ensures line[p] != ']' {
      assert line[i + 1 + (p - i - 1)] == t[p - i - 1];
    }
    IndexOfIsFirst(line, ']', i + 1, i + 1 + |t|);
  }

  /** The scanner's search for `)` stops right after the target group. */
  lemma TargetEndFound(line: string, m: LinkMatch)
    requires IsMatchIn(line, m)
    ensures IndexOf(line, ')', m.start + 3 + |m.text|) == Some(m.start + 3 + |m.text| + |m.target|)
    ensures line[m.start + 3 + |m.text|..m.start + 3 + |m.text| + |m.target|] == m.target
  {
    var from, g := m.start + 3 + |m.text|, m.target;
    MatchChars(line, m);
    forall p | from <= p < from + |g| ensures line[p] != ')' {
      assert line[from + (p - from)] == g[p - from];
    }
    IndexOfIsFirst(line, ')', from, from + |g|);
  }

  /** MatchAt read off from where its two searches stop. */
  lemma MatchAtFromDelimiters(line: string, i: nat, j: nat, k: nat)
    requires i < |line| && line[i] == '['
    requires IndexOf(line, ']', i + 1) == Some(j)
    requires j + 1 < |line| && line[j + 1] == '('
    requires IndexOf(line, ')', j + 2) == Some(k) && k > j + 2
    ensures MatchAt(line, i) == Some(LinkMatch(i, k + 1, line[i + 1..j], line[j + 2..k]))
  {
  }

  /** Every match of the pattern starting at `m.start` is the one MatchAt finds there. */
  lemma MatchAtComplete(line: string, m: LinkMatch)
    requires IsMatchIn(line, m)
    ensures MatchAt(line, m.start) == Some(m)
  {
    var i := m.start;
    var j := i + 1 + |m.text|;
    var k := j + 2 + |m.target|;
    assert line[i] == '[' && line[j + 1] == '(' && m.end == k + 1 by {
      MatchChars(line, m);
    }
    TextEndFound(line, m);
    TargetEndFound(line, m);
    MatchAtFromDelimiters(line, i, j, k);
  }

  /** The pattern never matches twice from one start index: the regex cannot be ambiguous. */
  lemma MatchUniqueAtStart(line: string, m1: LinkMatch, m2: LinkMatch)
    requires IsMatchIn(line, m1) && IsMatchIn(line, m2)
    requires m1.start == m2.start
    ensures m1 == m2
  {
    MatchAtComplete(line, m1);
    MatchAtComplete(line, m2);
  }

  /** One call of `find()` whose search begins at index `from`: the leftmost match at or after it. */
  function FindFrom(line: string, from: nat): (r: Option<LinkMatch>)
    decreases |line| - from
    ensures r.Some? ==> from <= r.value.start < r.value.end <= |line| && IsMatchIn(line, r.value)
    ensures r.Some? ==> MatchAt(line, r.value.start) == r
    ensures r.Some? ==> forall p :: from <= p < r.value.start ==> MatchAt(line, p).None?
    ensures r.None? ==> forall p :: from <= p ==> MatchAt(line, p).None?
  {
    if from >= |line| then None
    else
      match MatchAt(line, from)
      case Some(m) => Some(m)
      case None => FindFrom(line, from + 1)
  }

  /** FindFrom returns the leftmost match in the sense of IsMatchIn, and None only when there is none. */
  lemma FindFromIsLeftmost(line: string, from: nat, m: LinkMatch)
    requires IsMatchIn(line, m) && from <= m.start
    ensures FindFrom(line, from).Some?
    ensures FindFrom(line, from).value.start <= m.start
  {
    MatchAtComplete(line, m);
  }

  /**
   The successive results of `while (m.find())`: each search resumes at the
   end of the previous match (matches are never empty, so there is no
   zero-length bump).
   */
  function Matches(line: string, from: nat): (ms: seq<LinkMatch>)
    decreases |line| - from
    ensures forall m :: m in ms ==> IsMatchIn(line, m) && from <= m.start < m.end
    ensures |ms| > 0 ==> Some(ms[0]) == FindFrom(line, from)
    ensures |ms| == 0 <==> FindFrom(line, from).None?
  {
    match FindFrom(line, from)
    case None => []
    case Some(m) => [m] + Matches(line, m.end)
  }

  /** Matches listed left to right, each ending before the next begins. */
  predicate NonOverlapping(ms: seq<LinkMatch>) {
    forall a, b :: 0 <= a < b < |ms| ==> ms[a].end <= ms[b].start
  }

  lemma NonOverlappingCons(m: LinkMatch, rest: seq<LinkMatch>)
    requires NonOverlapping(rest)
    requires forall x :: x in rest ==> m.end <= x.start
    ensures NonOverlapping([m] + rest)
  {
    var ms := [m] + rest;
    forall a, b | 0 <= a < b < |ms| ensures ms[a].end <= ms[b].start {
      assert ms[b] == rest[b - 1] && rest[b - 1] in rest;
      if a > 0 {
        assert ms[a] == rest[a - 1];
      }
    }
  }

  /** The walk never visits overlapping matches. */
  lemma {:induction false} MatchesNonOverlapping(line: string, from: nat)
    ensures NonOverlapping(Matches(line, from))
    decreases |line| - from
  {
    match FindFrom(line, from)
    case None =>
    case Some(m) =>
      MatchesNonOverlapping(line, m.end);
      NonOverlappingCons(m, Matches(line, m.end));
  }

  /** Every element of the walk is a genuine match at or after `from`, and they come in order without overlapping. */
  lemma MatchesOrdered(line: string, from: nat)
    ensures forall a :: 0 <= a < |Matches(line, from)| ==>
      IsMatchIn(line, Matches(line, from)[a]) && from <= Matches(line, from)[a].start < Matches(line, from)[a].end
    ensures forall a, b :: 0 <= a < b < |Matches(line, from)| ==>
      Matches(line, from)[a].end <= Matches(line, from)[b].start
  {
    var ms := Matches(line, from);
    assert forall a :: 0 <= a < |ms| ==> ms[a] in ms;
    MatchesNonOverlapping(line, from);
  }

  /** No two matches of the walk contain the same cursor offset. */
  lemma AtMostOneContains(line: string, from: nat, cursor: int, a: nat, b: nat)
    requires a < |Matches(line, from)| && b < |Matches(line, from)|
    requires Contains(Matches(line, from)[a], cursor) && Contains(Matches(line, from)[b], cursor)
    ensures a == b
  {
    MatchesOrdered(line, from);
  }

  /** The first match of the walk from `from` whose span contains `cursor`. */
  function FindLinkFrom(line: string, cursor: int, from: nat): (r: Option<LinkMatch>)
    decreases |line| - from
    ensures r.Some? ==> r.value in Matches(line, from) && Contains(r.value, cursor)
    ensures r.None? ==> forall m :: m in Matches(line, from) ==> !Contains(m, cursor)
  {
    match FindFrom(line, from)
    case None => None
    case Some(m) =>
      if Contains(m, cursor) then Some(m) else FindLinkFrom(line, cursor, m.end)
  }

  /**
   The link under the cursor: the first match of the find() walk over the
   line whose span contains the line-relative offset `cursor`. A match found
   is `[` text `](` target `)` with the character-class restrictions, and it
   is the only match of the walk that contains the cursor.
   */
  function FindLinkAt(line: string, cursor: int): (r: Option<LinkMatch>)
    ensures r.Some? ==> IsMatchIn(line, r.value) && Contains(r.value, cursor)
    ensures r.Some? ==> forall m :: m in Matches(line, 0) && Contains(m, cursor) ==> m == r.value
    ensures r.None? <==> forall m :: m in Matches(line, 0) ==> !Contains(m, cursor)
  {
    var r := FindLinkFrom(line, cursor, 0);
    MatchesOrdered(line, 0);
    if r.Some? then
      var ms := Matches(line, 0);
      assert forall m :: m in ms && Contains(m, cursor) ==> m == r.value by {
        forall m | m in ms && Contains(m, cursor) ensures m == r.value {
          var a :| 0 <= a < |ms| && ms[a] == m;
          var b :| 0 <= b < |ms| && ms[b] == r.value;
          AtMostOneContains(line, 0, cursor, a, b);
        }
      }
      r
    else r
  }

  /** Once the search has moved past the cursor, no later match can contain it. */
  lemma {:induction false} NothingPastCursor(line: string, cursor: int, from: nat)
    requires cursor < from
    ensures FindLinkFrom(line, cursor, from).None?
  {
    MatchesOrdered(line, from);
  }
}
