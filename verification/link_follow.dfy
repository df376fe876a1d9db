/**
 followLinkUnderCursor: take the selection start, find the Markdown link
 whose span contains it on the current line, and either open the target
 as a web page or hand it to file navigation.

 The editor queries (selection start, current line, start offset of that
 line) arrive as parameters. Resolving a relative target against the
 document's folder and asking whether that file exists or can be created
 are foreign calls: together they are the predicate `canCreate`, applied
 to the raw target.
 */
module LinkFollow {
  import opened Options
  import opened LinkPattern
  import opened WebUrl

  /** What following the link did: open a browser, open a file, or nothing (the method returned false). */
  datatype LinkOutcome = Web(url: string) | File(target: string) | NotHandled

  /** The decision taken for a target whose span contains the cursor. */
  function Classify(target: string, canCreate: string -> bool): (r: LinkOutcome)
    ensures r.Web? <==> IsWebUrl(target)
    ensures r.File? <==> !IsWebUrl(target) && canCreate(target)
    ensures r.Web? ==> r.url == target
    ensures r.File? ==> r.target == target
  {
    if IsWebUrl(target) then Web(target)
    else if canCreate(target) then File(target)
    else NotHandled
  }

  /**
   Reference behaviour: a negative selection is not handled; otherwise the
   single link of the line whose span holds the line-relative cursor
   decides, and without one nothing is handled.
   */
  function FollowLink(sel: int, line: string, lineStart: int, canCreate: string -> bool): (r: LinkOutcome)
    ensures sel < 0 ==> r == NotHandled
    ensures r.Web? ==> IsWebUrl(r.url)
    ensures r.File? ==> !IsWebUrl(r.target) && canCreate(r.target)
  {
    if sel < 0 then NotHandled
    else
      match FindLinkAt(line, sel - lineStart)
      case None => NotHandled
      case Some(m) => Classify(m.target, canCreate)
  }

  /**
   FollowLink in terms of the find() walk alone: an outcome other than
   NotHandled comes from a visited link whose span holds the cursor and
   whose target it names; NotHandled means a negative selection, or that
   every visited link holding the cursor is neither a web URL nor creatable.
   */
  lemma FollowLinkMeaning(sel: int, line: string, lineStart: int, canCreate: string -> bool)
    ensures FollowLink(sel, line, lineStart, canCreate).Web? ==>
      exists m :: m in Matches(line, 0) && Contains(m, sel - lineStart)
        && m.target == FollowLink(sel, line, lineStart, canCreate).url
    ensures FollowLink(sel, line, lineStart, canCreate).File? ==>
      exists m :: m in Matches(line, 0) && Contains(m, sel - lineStart)
        && m.target == FollowLink(sel, line, lineStart, canCreate).target
    ensures FollowLink(sel, line, lineStart, canCreate) == NotHandled <==> (
      || sel < 0
      || forall m :: m in Matches(line, 0) && Contains(m, sel - lineStart) ==>
           !IsWebUrl(m.target) && !canCreate(m.target))
  {
    if sel >= 0 {
      var found := FindLinkAt(line, sel - lineStart);
      if found.Some? {
        assert found.value in Matches(line, 0);
      }
    }
  }

  /**
   The loop as the source writes it: keep calling find(); on a match that
   contains the cursor open a web target, or a file target that can be
   created, and otherwise keep searching; return false when find() fails.
   */
  method FollowLinkUnderCursor(sel: int, line: string, lineStart: int, canCreate: string -> bool)
    returns (r: LinkOutcome)
    ensures r == FollowLink(sel, line, lineStart, canCreate)
  {
    if sel < 0 {
      return NotHandled;
    }
    var cursor := sel - lineStart;
    var from: nat := 0;
    while true
      invariant from <= |line|
      invariant FollowLink(sel, line, lineStart, canCreate) ==
        match FindLinkFrom(line, cursor, from)
        case None => NotHandled
        case Some(m) => Classify(m.target, canCreate)
      decreases |line| - from
    {
      var found := FindFrom(line, from);
      if found.None? {
        return NotHandled;
      }
      var m := found.value;
      if m.start <= cursor && m.end > cursor {
        if IsWebUrl(m.target) {
          return Web(m.target);
        } else if canCreate(m.target) {
          return File(m.target);
        }
        NothingPastCursor(line, cursor, m.end);
      }
      from := m.end;
    }
  }

  /**
   A link `[text](target)` on a line whose preceding text opens no `[` is
   the one found for every cursor offset inside its span.
   */
  lemma LinkUnderCursorIsFound(prefix: string, text: string, target: string, suffix: string, cursor: int)
    requires '[' !in prefix && WellFormedGroups(text, target)
    requires |prefix| <= cursor < |prefix| + |Render(text, target)|
    ensures FindLinkAt(prefix + Render(text, target) + suffix, cursor)
      == Some(LinkMatch(|prefix|, |prefix| + |Render(text, target)|, text, target))
  {
    var line := prefix + Render(text, target) + suffix;
    var m := LinkMatch(|prefix|, |prefix| + |Render(text, target)|, text, target);
    assert line[m.start..m.end] == Render(text, target);
    assert IsMatchIn(line, m);
    FindFromIsLeftmost(line, 0, m);
    var f := FindFrom(line, 0).value;
    assert line[f.start] == '[' by {
      MatchChars(line, f);
    }
    forall p | 0 <= p < |prefix| ensures line[p] != '[' {
      assert line[p] == prefix[p];
    }
    MatchUniqueAtStart(line, f, m);
  }

  /** A web link under the cursor is opened in the browser with exactly its target. */
  lemma WebLinkIsOpened(prefix: string, text: string, url: string, suffix: string,
                        lineStart: int, sel: int, canCreate: string -> bool)
    requires '[' !in prefix && WellFormedGroups(text, url) && IsWebUrl(url)
    requires sel >= 0 && |prefix| <= sel - lineStart < |prefix| + |Render(text, url)|
    ensures FollowLink(sel, prefix + Render(text, url) + suffix, lineStart, canCreate) == Web(url)
  {
    LinkUnderCursorIsFound(prefix, text, url, suffix, sel - lineStart);
  }

  /** A non-web target that can be created is navigated to. */
  lemma FileLinkIsOpened(prefix: string, text: string, target: string, suffix: string,
                         lineStart: int, sel: int, canCreate: string -> bool)
    requires '[' !in prefix && WellFormedGroups(text, target)
    requires !IsWebUrl(target) && canCreate(target)
    requires sel >= 0 && |prefix| <= sel - lineStart < |prefix| + |Render(text, target)|
    ensures FollowLink(sel, prefix + Render(text, target) + suffix, lineStart, canCreate) == File(target)
  {
    LinkUnderCursorIsFound(prefix, text, target, suffix, sel - lineStart);
  }

  /**
   Whatever else is on the line, the visited link whose span holds the
   line-relative cursor decides the outcome through Classify.
   */
  lemma ContainingLinkDecides(sel: int, line: string, lineStart: int, canCreate: string -> bool, m: LinkMatch)
    requires sel >= 0 && m in Matches(line, 0) && Contains(m, sel - lineStart)
    ensures FollowLink(sel, line, lineStart, canCreate) == Classify(m.target, canCreate)
  {
    var found := FindLinkAt(line, sel - lineStart);
    assert found.Some?;
  }

  /**
   An earlier `[…](` with no `)` before a later link takes that link into
   its own target: on `[a](b [t](http://x.y)` the `(` at index 3 is not
   closed until the inner link's `)`, so the match starts at 0, its target
   runs to the last `)`, and a cursor on the inner link does not see
   `http://x.y`.
   */
  lemma UnclosedParenSwallowsLink()
    ensures FindLinkAt("[a](b [t](http://x.y)", 8) == Some(LinkMatch(0, 21, "a", "b [t](http://x.y"))
    ensures !IsWebUrl("b [t](http://x.y")
  {
    SwallowedMatch();
    SwallowedTargetNotWeb();
  }

  lemma SwallowedMatch()
    ensures FindFrom("[a](b [t](http://x.y)", 0) == Some(LinkMatch(0, 21, "a", "b [t](http://x.y"))
  {
    var line := "[a](b [t](http://x.y)";
    var m := LinkMatch(0, 21, "a", "b [t](http://x.y");
    assert line[0..21] == Render("a", "b [t](http://x.y");
    MatchAtComplete(line, m);
  }

  lemma SwallowedTargetNotWeb()
    ensures !IsWebUrl("b [t](http://x.y")
  {
    var t := "b [t](http://x.y";
    assert SchemeLength(t) == 0 by { assert t[0] == 'b'; }
  }

  /**
   An earlier `[` that is never closed only moves the match start: on
   `[x [t](http://x.y)` the match starts at 0 with text `x [t`, but its
   target is still `http://x.y`, so the cursor on the inner link opens it.
   */
  lemma UnclosedBracketKeepsTarget(canCreate: string -> bool)
    ensures FindLinkAt("[x [t](http://x.y)", 5) == Some(LinkMatch(0, 18, "x [t", "http://x.y"))
    ensures FollowLink(5, "[x [t](http://x.y)", 0, canCreate) == Web("http://x.y")
  {
    var line := "[x [t](http://x.y)";
    var m := LinkMatch(0, 18, "x [t", "http://x.y");
    assert line[0..18] == Render("x [t", "http://x.y");
    MatchAtComplete(line, m);
    assert FindFrom(line, 0) == Some(m);
    InnerTargetIsWeb();
  }

  lemma InnerTargetIsWeb()
    ensures IsWebUrl("http://x.y")
  {
    var t := "http://x.y";
    assert t[..8] != "https://" by { assert t[4] == ':'; }
    assert t[..7] == "http://";
  }

  /** `http://example.com` is a web target. */
  lemma ExampleComIsWeb()
    ensures IsWebUrl("http://example.com")
  {
    var t := "http://example.com";
    assert t[..8] != "https://" by { assert t[4] == ':'; }
    assert t[..7] == "http://";
  }
}
