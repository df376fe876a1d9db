/**
 onActionClick / onActionLongClick: the switch from a toolbar button to
 what it does. Regex-based line edits are named by the rule the pattern
 generator is asked for (the patterns themselves are not part of this
 model); the list rules carry the configured unordered-list character
 (the app setting read at click time, here the parameter `listChar`);
 inline actions carry their literal delimiter; everything the Markdown
 switch does not name goes to the shared common handler, whose answer is
 the parameter `runCommon`.
 */
module Actions {
  import opened Options
  import opened LinkFollow

  /** The button identifiers the Markdown switch distinguishes; any other identifier is `Other`. */
  datatype ActionId =
    | Quote | Heading1 | Heading2 | Heading3
    | UnorderedList | CheckboxList | OrderedList
    | Bold | Italic | Strikeout | CodeInline | HorizontalLine
    | TableInsertColumns | OpenLinkBrowser
    | Other(key: string)

  /** The line-prefix rules requested from the pattern generator. */
  datatype ReplaceRule =
    | ToggleQuote
    | SetOrUnsetHeading(level: nat)
    | UnorderedListPrefix(listChar: string)
    | CheckboxListPrefix(listChar: string)
    | OrderedListPrefix

  datatype Command =
    | RegexReplace(rule: ReplaceRule, renumber: bool)
    | InlineWrap(delim: string)
    | TableDialog(longPress: bool)
    | CodeFence
    | FollowLinkOrCommon
    | Common

  /** The five literal delimiters of the inline actions. */
  const InlineDelimiters: set<string> := {"**", "_", "~~", "`", "----\n"}

  /** The click switch; `listChar` is the configured unordered-list character. */
  function Dispatch(a: ActionId, listChar: string): (c: Command)
    ensures c.InlineWrap? ==> c.delim in InlineDelimiters
    ensures c.RegexReplace? && c.rule.SetOrUnsetHeading? ==> 1 <= c.rule.level <= 3
    ensures c.RegexReplace? ==> (c.renumber <==> a == OrderedList)
    ensures c.RegexReplace? && (c.rule.UnorderedListPrefix? || c.rule.CheckboxListPrefix?) ==>
      c.rule.listChar == listChar
    ensures c.Common? <==> a.Other?
    ensures c.FollowLinkOrCommon? <==> a == OpenLinkBrowser
    ensures c.TableDialog? ==> !c.longPress
    ensures !c.CodeFence?
  {
    match a
    case Quote => RegexReplace(ToggleQuote, false)
    case Heading1 => RegexReplace(SetOrUnsetHeading(1), false)
    case Heading2 => RegexReplace(SetOrUnsetHeading(2), false)
    case Heading3 => RegexReplace(SetOrUnsetHeading(3), false)
    case UnorderedList => RegexReplace(UnorderedListPrefix(listChar), false)
    case CheckboxList => RegexReplace(CheckboxListPrefix(listChar), false)
    case OrderedList => RegexReplace(OrderedListPrefix, true)
    case Bold => InlineWrap("**")
    case Italic => InlineWrap("_")
    case Strikeout => InlineWrap("~~")
    case CodeInline => InlineWrap("`")
    case HorizontalLine => InlineWrap("----\n")
    case TableInsertColumns => TableDialog(false)
    case OpenLinkBrowser => FollowLinkOrCommon
    case Other(_) => Common
  }

  /** Which Markdown button a command belongs to: the inverse of Dispatch on those buttons. */
  function ActionOf(c: Command): Option<ActionId> {
    match c
    case RegexReplace(ToggleQuote, false) => Some(Quote)
    case RegexReplace(SetOrUnsetHeading(1), false) => Some(Heading1)
    case RegexReplace(SetOrUnsetHeading(2), false) => Some(Heading2)
    case RegexReplace(SetOrUnsetHeading(3), false) => Some(Heading3)
    case RegexReplace(UnorderedListPrefix(_), false) => Some(UnorderedList)
    case RegexReplace(CheckboxListPrefix(_), false) => Some(CheckboxList)
    case RegexReplace(OrderedListPrefix, true) => Some(OrderedList)
    case InlineWrap("**") => Some(Bold)
    case InlineWrap("_") => Some(Italic)
    case InlineWrap("~~") => Some(Strikeout)
    case InlineWrap("`") => Some(CodeInline)
    case InlineWrap("----\n") => Some(HorizontalLine)
    case TableDialog(false) => Some(TableInsertColumns)
    case FollowLinkOrCommon => Some(OpenLinkBrowser)
    case _ => None
  }

  /** The list character a command was built with, or `fallback` when it carries none. */
  function ListCharOf(c: Command, fallback: string): string {
    if c.RegexReplace? && (c.rule.UnorderedListPrefix? || c.rule.CheckboxListPrefix?) then c.rule.listChar
    else fallback
  }

  /**
   Every button the Markdown switch names gets a command of its own: the
   command determines the button, and, with the list character it carries,
   the button gives back that command; the buttons the switch does not name
   all share the common handler.
   */
  lemma DispatchRoundTrip(a: ActionId, listChar: string, c: Command)
    ensures !a.Other? ==> ActionOf(Dispatch(a, listChar)) == Some(a)
    ensures a.Other? ==> ActionOf(Dispatch(a, listChar)) == None
    ensures ActionOf(c).Some? ==> Dispatch(ActionOf(c).value, ListCharOf(c, listChar)) == c
  {
  }

  /** Bold, italic, strike-out, inline code and horizontal line use exactly the five delimiters. */
  lemma InlineDelimitersCovered(d: string)
    ensures d in InlineDelimiters <==> exists a, listChar :: Dispatch(a, listChar) == InlineWrap(d)
  {
    if d in InlineDelimiters {
      if d == "**" { assert Dispatch(Bold, "") == InlineWrap(d); }
      else if d == "_" { assert Dispatch(Italic, "") == InlineWrap(d); }
      else if d == "~~" { assert Dispatch(Strikeout, "") == InlineWrap(d); }
      else if d == "`" { assert Dispatch(CodeInline, "") == InlineWrap(d); }
      else { assert Dispatch(HorizontalLine, "") == InlineWrap(d); }
    }
  }

  /** The heading buttons h1, h2, h3 request heading levels 1, 2, 3. */
  lemma HeadingLevels(a: ActionId, listChar: string, level: nat)
    ensures Dispatch(a, listChar) == RegexReplace(SetOrUnsetHeading(level), false) <==>
      (level == 1 && a == Heading1) || (level == 2 && a == Heading2) || (level == 3 && a == Heading3)
  {
  }

  /** The long-press switch: the table dialog with its flag set, the code fence, or the common handler. */
  function DispatchLong(a: ActionId): (c: Command)
    ensures c.TableDialog? <==> a == TableInsertColumns
    ensures c.TableDialog? ==> c.longPress
    ensures c.CodeFence? <==> a == CodeInline
    ensures c.Common? <==> a != TableInsertColumns && a != CodeInline
  {
    match a
    case TableInsertColumns => TableDialog(true)
    case CodeInline => CodeFence
    case _ => Common
  }

  /**
   Click and long press agree where both act: the table button opens the
   same dialog and the two differ only in its flag; inline code wraps in a
   backtick on click and fences on long press; every other button that the
   click switch handles itself is left to the common long-press handler.
   */
  lemma LongPressPartnersClick(a: ActionId, listChar: string)
    ensures DispatchLong(a).TableDialog? <==> Dispatch(a, listChar).TableDialog?
    ensures DispatchLong(a).TableDialog? ==>
      DispatchLong(a) == TableDialog(!Dispatch(a, listChar).longPress)
    ensures DispatchLong(a).CodeFence? <==> Dispatch(a, listChar) == InlineWrap("`")
    ensures (!Dispatch(a, listChar).Common? && !Dispatch(a, listChar).TableDialog? &&
             Dispatch(a, listChar) != InlineWrap("`")) ==> DispatchLong(a).Common?
  {
    if a == TableInsertColumns {
      assert Dispatch(a, listChar) == TableDialog(false);
    }
  }

  /** What the editor reports when a click arrives: selection start, its line, and that line's start offset. */
  datatype CursorState = CursorState(sel: int, line: string, lineStart: int)

  /** What a click ended up doing; Delegated carries the common handler's answer. */
  datatype ClickOutcome = Ran(cmd: Command) | OpenedLink(link: LinkOutcome) | Delegated(handled: bool)
  {
    /** The boolean the click handler returns. */
    predicate Handled() {
      match this
      case Delegated(h) => h
      case _ => true
    }
  }

  /**
   onActionClick. The open-link button first tries to follow the link under
   the cursor and only falls through to the common handler when that is
   not handled; every other named button is consumed.
   */
  function OnActionClick(a: ActionId, cur: CursorState, listChar: string, canCreate: string -> bool,
                         runCommon: ActionId -> bool): (r: ClickOutcome)
    ensures r.OpenedLink? <==>
      a == OpenLinkBrowser && FollowLink(cur.sel, cur.line, cur.lineStart, canCreate) != NotHandled
    ensures r.OpenedLink? ==> r.link == FollowLink(cur.sel, cur.line, cur.lineStart, canCreate)
    ensures r.Delegated? <==>
      a.Other? || (a == OpenLinkBrowser && FollowLink(cur.sel, cur.line, cur.lineStart, canCreate) == NotHandled)
    ensures r.Delegated? ==> r.handled == runCommon(a)
    ensures r.Ran? ==> ActionOf(r.cmd) == Some(a)
    ensures r.Ran? ==> ListCharOf(r.cmd, listChar) == listChar
    ensures !r.Handled() ==> r.Delegated? && !runCommon(a)
  {
    match Dispatch(a, listChar)
    case FollowLinkOrCommon =>
      var link := FollowLink(cur.sel, cur.line, cur.lineStart, canCreate);
      if link != NotHandled then OpenedLink(link) else Delegated(runCommon(a))
    case Common => Delegated(runCommon(a))
    case c => Ran(c)
  }

  /** onActionLongClick: the table and inline-code buttons are consumed, the rest go to the common long-press handler. */
  function OnActionLongClick(a: ActionId, runCommonLong: ActionId -> bool): (r: ClickOutcome)
    ensures r.Delegated? <==> a != TableInsertColumns && a != CodeInline
    ensures r.Delegated? ==> r.handled == runCommonLong(a)
    ensures r.Ran? ==> r.cmd == (if a == CodeInline then CodeFence else TableDialog(true))
    ensures !r.OpenedLink?
  {
    match DispatchLong(a)
    case Common => Delegated(runCommonLong(a))
    case c => Ran(c)
  }
}
