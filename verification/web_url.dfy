/**
 The WEB_URL pattern `https?://[^\s/$.?#].[^\s]*`, used with
 `Matcher.matches()`, i.e. it must cover the whole target.

 Java's default (non-Unicode) `\s` is the six characters space, tab,
 line feed, vertical tab, form feed and carriage return; `.` without
 DOTALL or UNIX_LINES refuses the line terminators line feed, carriage
 return, NEL (U+0085), LINE SEPARATOR (U+2028) and PARAGRAPH SEPARATOR
 (U+2029), and accepts everything else, spaces included.
 */
module WebUrl {

  predicate IsRegexSpace(c: char) {
    c == ' ' || c == '\t' || c == '\n' || c == '\U{B}' || c == '\U{C}' || c == '\r'
  }

  predicate IsLineTerminator(c: char) {
    c == '\n' || c == '\r' || c == '\U{85}' || c == '\U{2028}' || c == '\U{2029}'
  }

  /** The class `[^\s/$.?#]`: the first character after the scheme. */
  predicate IsHostStart(c: char) {
    !IsRegexSpace(c) && c != '/' && c != '$' && c != '.' && c != '?' && c != '#'
  }

  /** Length of the `https?://` prefix the scanner recognises, 0 when there is none. */
  function SchemeLength(t: string): (n: nat)
    ensures n == 0 || n == 7 || n == 8
    ensures n > 0 ==> n <= |t|
  {
    if |t| >= 8 && t[..8] == "https://" then 8
    else if |t| >= 7 && t[..7] == "http://" then 7
    else 0
  }

  /** True when no character from index `k` on is a `\s` character (the tail `[^\s]*`). */
  function NoSpaceFrom(t: string, k: nat): (b: bool)
    decreases |t| - k
    ensures b <==> forall p :: k <= p < |t| ==> !IsRegexSpace(t[p])
  {
    if k >= |t| then true
    else !IsRegexSpace(t[k]) && NoSpaceFrom(t, k + 1)
  }

  /** What the scanner checks once a scheme of length `n` has been recognised. */
  predicate AcceptsAfterScheme(t: string, n: nat) {
    n > 0 && n + 2 <= |t| && IsHostStart(t[n]) && !IsLineTerminator(t[n + 1]) && NoSpaceFrom(t, n + 2)
  }

  /**
   The hand-coded full-match scanner for WEB_URL: `WEB_URL.matcher(t).matches()`.
   It accepts exactly the strings in the regex's language.
   */
  function IsWebUrl(t: string): (b: bool)
    ensures b <==> InWebUrlLanguage(t)
  {
    ScannerMatchesRegex(t);
    AcceptsAfterScheme(t, SchemeLength(t))
  }

  /** What may follow `://`: `[^\s/$.?#]`, then `.`, then `[^\s]*`. */
  ghost predicate HostAndPath(rest: string) {
    && |rest| >= 2
    && IsHostStart(rest[0])
    && !IsLineTerminator(rest[1])
    && forall c :: c in rest[2..] ==> !IsRegexSpace(c)
  }

  /** The language of the regex, stated as its two alternatives for `s?`. */
  ghost predicate InWebUrlLanguage(t: string) {
    || (exists rest :: t == "http://" + rest && HostAndPath(rest))
    || (exists rest :: t == "https://" + rest && HostAndPath(rest))
  }

  /** Recognising the scheme and then scanning the rest decides the regex's language. */
  lemma ScannerMatchesRegex(t: string)
    ensures AcceptsAfterScheme(t, SchemeLength(t)) <==> InWebUrlLanguage(t)
  {
    var n := SchemeLength(t);
    if AcceptsAfterScheme(t, n) {
      var rest := t[n..];
      assert t == t[..n] + rest;
      forall c | c in rest[2..] ensures !IsRegexSpace(c) {
        var p :| 0 <= p < |rest[2..]| && rest[2..][p] == c;
        assert c == t[n + 2 + p];
      }
      assert HostAndPath(rest);
    }
    if InWebUrlLanguage(t) {
      if exists rest :: t == "https://" + rest && HostAndPath(rest) {
        var rest :| t == "https://" + rest && HostAndPath(rest);
        assert t[..8] == "https://";
        SuffixHasNoSpace(t, 8, rest);
      } else {
        var rest :| t == "http://" + rest && HostAndPath(rest);
        assert t[..7] == "http://";
        assert t[4] == ':';
        SuffixHasNoSpace(t, 7, rest);
      }
    }
  }

  lemma SuffixHasNoSpace(t: string, n: nat, rest: string)
    requires n <= |t| && t[n..] == rest && HostAndPath(rest)
    ensures NoSpaceFrom(t, n + 2)
  {
    forall p | n + 2 <= p < |t| ensures !IsRegexSpace(t[p]) {
      assert t[p] == rest[2..][p - n - 2];
    }
  }
}
