/** The interaction inventory: every testable control in view, classified by
    the behaviour a click should show, given a selector to find it again,
    ordered by row and re-numbered, with a size guard at the end. */
module Interactions {
  import opened Common
  import opened Selector
  import opened Sorting

  /** What the script reads from one element. */
  datatype Element = Element(
    handle: Handle,
    tag: string,                  // `tagName.toLowerCase()`
    role: Option<string>,         // `getAttribute('role')`
    ariaExpanded: Option<string>,
    ariaHaspopup: Option<string>,
    ariaLabel: Option<string>,
    typeAttr: Option<string>,     // `getAttribute('type')`
    href: Option<string>,
    id: string,                   // `el.id`, empty when there is none
    className: Option<string>,    // None when `className` is not a string (SVG)
    innerText: Option<string>,    // None when `innerText` is undefined
    attributes: seq<Attr>,        // `el.attributes`, in order
    inDataDropdown: bool,         // `el.closest('[data-dropdown]')` found something
    inDetails: bool,              // `el.closest('details')` found something
    optionCount: nat,             // `querySelectorAll('option').length`
    hasParent: bool,              // `el.parentElement` is not null
    nthOfType: Option<nat>,       // `indexOf(el)` among the same-tag siblings, when found
    rect: Rect)

  datatype Attr = Attr(name: string, value: string)

  // ---------------------------------------------------------------------
  // classifyElement
  // ---------------------------------------------------------------------

  datatype Kind = Tab | Dropdown | Accordion | Select | Checkbox | Radio | TextInput
                | AnchorLink | NavLink | Button | MenuItem | Unknown
  {
    /** The `type` string reported. */
    function Name(): string
    {
      match this
      case Tab => "tab"
      case Dropdown => "dropdown"
      case Accordion => "accordion"
      case Select => "select"
      case Checkbox => "checkbox"
      case Radio => "radio"
      case TextInput => "input"
      case AnchorLink => "anchor-link"
      case NavLink => "nav-link"
      case Button => "button"
      case MenuItem => "menuitem"
      case Unknown => "unknown"
    }

    /** Position of the rule that yields this kind in the priority list. */
    function Rank(): nat
    {
      match this
      case Tab => 0
      case Dropdown => 1
      case Accordion => 2
      case Select => 3
      case Checkbox => 4
      case Radio => 4
      case TextInput => 4
      case AnchorLink => 5
      case NavLink => 5
      case Button => 6
      case MenuItem => 7
      case Unknown => 8
    }
  }

  datatype Classification = Classification(kind: Kind, expectedBehavior: string)

  predicate HasRole(e: Element, r: string) { e.role == Some(r) }

  /** The guard of rule `i` of the priority list (rule 8, `unknown`, always holds). */
  predicate RuleHolds(e: Element, i: nat)
  {
    if i == 0 then HasRole(e, "tab") || e.tag == "tab"
    else if i == 1 then
      Truthy(e.ariaHaspopup) || e.ariaExpanded.Some? || e.inDataDropdown
      || HasRole(e, "combobox") || HasRole(e, "listbox")
    else if i == 2 then
      e.tag == "summary" || e.tag == "details" || e.inDetails
      || (HasRole(e, "button") && e.ariaExpanded.Some?)
    else if i == 3 then e.tag == "select"
    else if i == 4 then e.tag == "input" || e.tag == "textarea"
    else if i == 5 then e.tag == "a" && Truthy(e.href)
    else if i == 6 then e.tag == "button" || HasRole(e, "button")
    else if i == 7 then HasRole(e, "menuitem")
    else true
  }

  /** `getAttribute('type') || 'text'` */
  function InputType(e: Element): string
  {
    OrElse(e.typeAttr, "text")
  }

  predicate IsAnchorHref(href: string)
  {
    "#" <= href || "javascript:" <= href
  }

  function SelectBehavior(optionCount: nat): string
  {
    "Dropdown opens with " + NatToString(optionCount) + " options"
  }

  function Classify(e: Element): Classification
  {
    if RuleHolds(e, 0) then
      Classification(Tab, "Active class changes, associated panel becomes visible")
    else if RuleHolds(e, 1) then
      Classification(Dropdown, "Menu/panel opens on click, aria-expanded toggles")
    else if RuleHolds(e, 2) then
      Classification(Accordion, "Content panel expands/collapses")
    else if RuleHolds(e, 3) then
      Classification(Select, SelectBehavior(e.optionCount))
    else if RuleHolds(e, 4) then
      var t := InputType(e);
      if t == "checkbox" then Classification(Checkbox, "Toggle checked state on click")
      else if t == "radio" then Classification(Radio, "Toggle checked state on click")
      else Classification(TextInput, "Focus and accept text input")
    else if RuleHolds(e, 5) then
      if IsAnchorHref(e.href.value) then
        Classification(AnchorLink, "Scrolls to section or triggers JS action")
      else Classification(NavLink, "Navigates to " + e.href.value)
    else if RuleHolds(e, 6) then
      Classification(Button, "Click triggers visual feedback or action")
    else if RuleHolds(e, 7) then
      Classification(MenuItem, "Click selects or navigates")
    else Classification(Unknown, "Click and observe DOM changes")
  }

  /** First match wins: the kind comes from the first rule, in list order,
      whose guard holds. */
  lemma ClassifyFirstMatch(e: Element)
    ensures RuleHolds(e, Classify(e).kind.Rank())
    ensures forall i: nat :: i < Classify(e).kind.Rank() ==> !RuleHolds(e, i)
  {
  }

  /** Any element with `aria-expanded` is a tab or a dropdown, so the
      accordion rule's `role=button` with `aria-expanded` clause never decides. */
  lemma AriaExpandedIsDropdown(e: Element)
    requires e.ariaExpanded.Some?
    ensures Classify(e).kind == Tab || Classify(e).kind == Dropdown
    ensures Classify(e).kind == Dropdown <==> !(HasRole(e, "tab") || e.tag == "tab")
  {
  }

  /** A select reports its option count, which reads back from the text. */
  lemma SelectReportsOptionCount(e: Element)
    requires Classify(e).kind == Select
    ensures var b := Classify(e).expectedBehavior;
      var digits := b[20..|b| - 8];
      && b[..20] == "Dropdown opens with "
      && b[|b| - 8..] == " options"
      && (forall i :: 0 <= i < |digits| ==> IsDigit(digits[i]))
      && DigitsValue(digits) == e.optionCount
  {
    var d := NatToString(e.optionCount);
    var b := Classify(e).expectedBehavior;
    assert b == "Dropdown opens with " + d + " options";
    assert b[20..|b| - 8] == d;
    NatToStringRoundTrip(e.optionCount);
  }

  /** An input or textarea is a checkbox or radio exactly when its type says
      so; any other type, or none (read as `text`), gives a text input. */
  lemma InputKinds(e: Element)
    requires Classify(e).kind.Rank() == 4
    ensures Classify(e).kind == Checkbox <==> e.typeAttr == Some("checkbox")
    ensures Classify(e).kind == Radio <==> e.typeAttr == Some("radio")
    ensures e.typeAttr.None? ==> Classify(e).kind == TextInput
  {
  }

  /** A link is an anchor link exactly when its href starts with `#` or
      `javascript:`; otherwise it navigates to that href. */
  lemma LinkKinds(e: Element)
    requires Classify(e).kind.Rank() == 5
    ensures e.tag == "a" && Truthy(e.href)
    ensures Classify(e).kind == AnchorLink <==> IsAnchorHref(e.href.value)
    ensures Classify(e).kind == NavLink ==> Classify(e).expectedBehavior == "Navigates to " + e.href.value
  {
  }

  // ---------------------------------------------------------------------
  // buildSelector
  // ---------------------------------------------------------------------

  // ---------------------------------------------------------------------
  // Reading a quoted value back the way CSS does
  // ---------------------------------------------------------------------

  predicate IsHexDigit(c: char)
  {
    '0' <= c <= '9' || 'a' <= c <= 'f' || 'A' <= c <= 'F'
  }

  function HexDigitValue(c: char): (v: nat)
    requires IsHexDigit(c)
    ensures v < 16
  {
    if c <= '9' then c as int - '0' as int
    else if 'a' <= c then c as int - 'a' as int + 10
    else c as int - 'A' as int + 10
  }

  /** The number of hex digits that start `t`, at most `max`. */
  function HexRun(t: string, max: nat): (n: nat)
    ensures n <= |t| && n <= max
    ensures forall i :: 0 <= i < n ==> IsHexDigit(t[i])
    ensures |t| > 0 && max > 0 && IsHexDigit(t[0]) ==> n >= 1
  {
    if t == [] || max == 0 || !IsHexDigit(t[0]) then 0 else 1 + HexRun(t[1..], max - 1)
  }

  function HexValue(h: string): nat
    requires forall i :: 0 <= i < |h| ==> IsHexDigit(h[i])
  {
    if h == [] then 0 else HexValue(h[..|h| - 1]) * 16 + HexDigitValue(h[|h| - 1])
  }

  /** The character of a hex escape: zero, a surrogate or a value beyond
      U+10FFFF give the replacement character. */
  function CodePoint(v: nat): char
  {
    if v == 0 || (0xD800 <= v <= 0xDFFF) || v > 0x10FFFF then '\U{FFFD}' else v as char
  }

  /** Line feed, carriage return and form feed all count as a newline. */
  predicate CssNewline(c: char)
  {
    c == '\n' || c == '\r' || c == '\U{000C}'
  }

  predicate CssSpace(c: char)
  {
    CssNewline(c) || c == '\t' || c == ' '
  }

  /** Input preprocessing turns a NUL into the replacement character. */
  function NulFree(c: char): char
  {
    if c == '\0' then '\U{FFFD}' else c
  }

  function Prepend(p: string, r: Option<(string, string)>): Option<(string, string)>
  {
    match r
    case None => None
    case Some(vr) => Some((p + vr.0, vr.1))
  }

  /** The value of a double-quoted string token whose opening quote has been
      read, and what follows its closing quote (section 4.3.5 of CSS Syntax
      Module Level 3, with the escapes of section 4.3.7): an unescaped `"`
      ends it; the end of the input ends it too; an unescaped newline makes a
      bad string (`None`); a backslash before a newline drops both; a
      backslash before one to six hex digits, and one optional space, stands
      for that code point; a backslash before anything else stands for it. */
  function CssString(t: string): Option<(string, string)>
    decreases |t|
  {
    if t == [] then Some(("", ""))
    else if t[0] == '"' then Some(("", t[1..]))
    else if CssNewline(t[0]) then None
    else if t[0] != '\\' then Prepend([NulFree(t[0])], CssString(t[1..]))
    else if |t| == 1 then Some(("", ""))
    else if t[1] == '\r' && |t| > 2 && t[2] == '\n' then CssString(t[3..])
    else if CssNewline(t[1]) then CssString(t[2..])
    else if IsHexDigit(t[1]) then
      var n := HexRun(t[1..], 6);
      var after := t[1 + n..];
      var rest :=
        if |after| >= 2 && after[0] == '\r' && after[1] == '\n' then after[2..]
        else if after != [] && CssSpace(after[0]) then after[1..]
        else after;
      Prepend([CodePoint(HexValue(t[1..1 + n]))], CssString(rest))
    else Prepend([NulFree(t[1])], CssString(t[2..]))
  }

  // ---------------------------------------------------------------------
  // buildSelector
  // ---------------------------------------------------------------------

  /** `s.replace(/"/g, '\\"')`, as the script writes it: a backslash before
      every double quote, and nothing else escaped. */
  function EscapeAsWritten(s: string): (r: string)
    ensures |r| >= |s|
  {
    if s == [] then []
    else AsWrittenChar(s[0]) + EscapeAsWritten(s[1..])
  }

  /** One character as the script writes it: `"` gets a backslash. */
  function AsWrittenChar(c: char): string
  {
    if c == '"' then ['\\', '"'] else [c]
  }

  /** Regrouping a quoted value whose escaped text starts with `head`. */
  lemma QuotedSplit(head: string, body: string, rest: string)
    ensures head + body + "\"" + rest == head + (body + "\"" + rest)
  {
  }

  /** One character as the script writes it, other than a backslash, a
      newline character or NUL, reads back as itself. */
  lemma AsWrittenCharReadsBack(c: char, tail: string)
    requires c != '\\' && !CssNewline(c) && c != '\0'
    ensures CssString(AsWrittenChar(c) + tail) == Prepend([c], CssString(tail))
  {
    var t := AsWrittenChar(c) + tail;
    if c == '"' {
      assert t[2..] == tail;
    } else {
      assert t[1..] == tail;
    }
  }

  /** A label with no backslash, newline or NUL reads back from the script's
      quoted value. */
  lemma {:induction false} EscapeAsWrittenReadsBack(s: string, rest: string)
    requires forall i :: 0 <= i < |s| ==> s[i] != '\\' && !CssNewline(s[i]) && s[i] != '\0'
    ensures CssString(EscapeAsWritten(s) + "\"" + rest) == Some((s, rest))
  {
    if s == [] {
      assert EscapeAsWritten(s) + "\"" + rest == "\"" + rest;
    } else {
      var tail := EscapeAsWritten(s[1..]) + "\"" + rest;
      assert forall i :: 0 <= i < |s[1..]| ==> s[1..][i] != '\\' && !CssNewline(s[1..][i]) && s[1..][i] != '\0' by {
        forall i | 0 <= i < |s[1..]|
          ensures s[1..][i] != '\\' && !CssNewline(s[1..][i]) && s[1..][i] != '\0'
        {
          assert s[1..][i] == s[i + 1];
        }
      }
      EscapeAsWrittenReadsBack(s[1..], rest);
      assert s[0] != '\\' && !CssNewline(s[0]) && s[0] != '\0';
      assert EscapeAsWritten(s) == AsWrittenChar(s[0]) + EscapeAsWritten(s[1..]);
      QuotedSplit(AsWrittenChar(s[0]), EscapeAsWritten(s[1..]), rest);
      AsWrittenCharReadsBack(s[0], tail);
      assert s == [s[0]] + s[1..];
    }
  }

  /** A label ending in a backslash: the backslash escapes the closing quote,
      so `a\` is read as `a"]` and the selector's bracket is swallowed. */
  lemma TrailingBackslashMisread()
    ensures EscapeAsWritten("a\\") == "a\\"
    ensures CssString(EscapeAsWritten("a\\") + "\"]") == Some(("a\"]", ""))
  {
    assert EscapeAsWritten("\\") == "\\" + EscapeAsWritten("");
    assert EscapeAsWritten("a\\") == "a" + EscapeAsWritten("\\");
    var t3 := "]";
    assert t3[1..] == [];
    assert CssString(t3) == Prepend(t3, CssString([]));
    var t2 := "\\\"]";
    assert t2[2..] == t3;
    assert CssString(t2) == Prepend("\"", CssString(t3));
    var t1 := "a\\\"]";
    assert t1[1..] == t2;
    assert CssString(t1) == Prepend("a", CssString(t2));
    var empty: string := [];
    assert CssString(empty) == Some((empty, empty));
    assert t3 + empty == t3;
    assert CssString(t3) == Some(("]", ""));
    assert "\"" + "]" == "\"]";
    assert CssString(t2) == Some(("\"]", ""));
    assert "a" + "\"]" == "a\"]";
    assert EscapeAsWritten("a\\") + "\"]" == t1;
  }

  /** `\b` followed by the closing quote reads as U+000B. */
  lemma HexEscapeReadsControl()
    ensures CssString("\\b\"]") == Some(("\U{000B}", "]"))
  {
    var t := "\\b\"]";
    assert t[1..][1..] == "\"]";
    assert HexRun(t[1..][1..], 5) == 0;
    assert HexRun(t[1..], 6) == 1;
    assert t[1..2] == "b";
    assert HexValue("b") == HexValue("") * 16 + 11;
    assert CodePoint(11) == '\U{000B}';
    assert t[2..] == "\"]";
    assert t[2..][1..] == "]";
    assert CssString(t[2..]) == Some(("", "]"));
    assert CssString(t) == Prepend("\U{000B}", CssString(t[2..]));
    assert "\U{000B}" + "" == "\U{000B}";
  }

  /** A backslash before a hex digit: `a\b` is read as `a` and the control
      character U+000B. */
  lemma HexEscapeMisread()
    ensures EscapeAsWritten("a\\b") == "a\\b"
    ensures CssString(EscapeAsWritten("a\\b") + "\"]") == Some(("a\U{000B}", "]"))
  {
    assert EscapeAsWritten("b") == "b" + EscapeAsWritten("");
    assert EscapeAsWritten("\\b") == "\\" + EscapeAsWritten("b");
    assert EscapeAsWritten("a\\b") == "a" + EscapeAsWritten("\\b");
    var t := "\\b\"]";
    HexEscapeReadsControl();
    var t1 := "a\\b\"]";
    assert t1[1..] == t;
    assert CssString(t1) == Prepend("a", CssString(t));
    assert "a" + "\U{000B}" == "a\U{000B}";
    assert EscapeAsWritten("a\\b") + "\"]" == t1;
  }

  /** How the selector needs one character written inside a quoted value:
      a backslash before `"` and `\`, a hex escape with its closing space
      for each newline character, and any other character as it is. */
  function EscapeChar(c: char): string
  {
    if c == '"' || c == '\\' then ['\\', c]
    else if c == '\n' then "\\a "
    else if c == '\r' then "\\d "
    else if c == '\U{000C}' then "\\c "
    else [c]
  }

  /** The escape the selector needs, character by character. */
  function Escape(s: string): (r: string)
    ensures |r| >= |s|
  {
    if s == [] then [] else EscapeChar(s[0]) + Escape(s[1..])
  }

  /** One escaped newline character: a single hex digit, then the space that ends it. */
  lemma NewlineEscapeReadsBack(d: char, v: nat, tail: string)
    requires (d == 'a' && v == 10) || (d == 'd' && v == 13) || (d == 'c' && v == 12)
    ensures CssString(['\\', d, ' '] + tail) == Prepend([CodePoint(v)], CssString(tail))
  {
    var t := ['\\', d, ' '] + tail;
    assert t[1..][1..] == [' '] + tail;
    assert HexRun(t[1..][1..], 5) == 0;
    assert HexRun(t[1..], 6) == 1;
    assert t[1..2] == [d];
    assert HexValue([d]) == HexValue([]) * 16 + v;
    assert t[2..] == [' '] + tail;
    assert t[2..][1..] == tail;
  }

  /** One escaped character reads back as itself. */
  lemma EscapeCharReadsBack(c: char, tail: string)
    requires c != '\0'
    ensures CssString(EscapeChar(c) + tail) == Prepend([c], CssString(tail))
  {
    var t := EscapeChar(c) + tail;
    if c == '"' || c == '\\' {
      assert t[2..] == tail;
    } else if c == '\n' {
      NewlineEscapeReadsBack('a', 10, tail);
      assert CodePoint(10) == '\n';
    } else if c == '\r' {
      NewlineEscapeReadsBack('d', 13, tail);
      assert CodePoint(13) == '\r';
    } else if c == '\U{000C}' {
      NewlineEscapeReadsBack('c', 12, tail);
      assert CodePoint(12) == '\U{000C}';
    } else {
      assert t[1..] == tail;
    }
  }

  /** Every label without a NUL reads back from the escaped quoted value. */
  lemma {:induction false} EscapeReadsBack(s: string, rest: string)
    requires '\0' !in s
    ensures CssString(Escape(s) + "\"" + rest) == Some((s, rest))
  {
    if s == [] {
      assert Escape(s) + "\"" + rest == "\"" + rest;
    } else {
      var tail := Escape(s[1..]) + "\"" + rest;
      assert '\0' !in s[1..] by {
        forall i | 0 <= i < |s[1..]| ensures s[1..][i] != '\0' {
          assert s[1..][i] == s[i + 1];
        }
      }
      EscapeReadsBack(s[1..], rest);
      assert s[0] != '\0' by { assert s[0] in s; }
      assert Escape(s) == EscapeChar(s[0]) + Escape(s[1..]);
      QuotedSplit(EscapeChar(s[0]), Escape(s[1..]), rest);
      EscapeCharReadsBack(s[0], tail);
      assert s == [s[0]] + s[1..];
    }
  }

  /** `a.name.startsWith('data-') && a.name !== 'data-dupe-annotation'` */
  predicate IsDataAttr(a: Attr)
  {
    "data-" <= a.name && a.name != "data-dupe-annotation"
  }

  /** `tag.c1.c2.c3`: the tag and the first three classes. */
  function ClassCandidate(tag: string, classes: seq<string>): string
  {
    tag + "." + Join(Take(classes, 3), ".")
  }

  /** The class list, when `className` is a non-empty string. */
  function SelectorClasses(e: Element): seq<string>
  {
    if Truthy(e.className) then Words(e.className.value) else []
  }

  /** `:scope > tag`: the query for the same-tag siblings. */
  function SiblingQuery(tag: string): string
  {
    ":scope > " + tag
  }

  /** Neither the id nor a unique class combination decides. */
  predicate ClassMissed(e: Element, matches: string -> Option<nat>)
  {
    e.id == "" &&
    (SelectorClasses(e) == [] ||
     (matches(ClassCandidate(e.tag, SelectorClasses(e))).Some? &&
      matches(ClassCandidate(e.tag, SelectorClasses(e))) != Some(1)))
  }

  /** The element has a role and some text within its first 30 characters. */
  predicate RoleText(e: Element)
  {
    Truthy(e.role) && Take(Trim(OrElse(e.innerText, "")), 30) != ""
  }

  /** Every branch before the position among siblings fails. */
  predicate PositionReached(e: Element, matches: string -> Option<nat>)
  {
    ClassMissed(e, matches) && !RoleText(e) && !Truthy(e.ariaLabel) && Filter(e.attributes, IsDataAttr) == []
  }

  /** `buildSelector` throws: `querySelectorAll` rejects the class candidate,
      or, once every earlier branch fails, the element has a parent and
      `parent.querySelectorAll` rejects the sibling query (a tag name that is
      not a CSS identifier, such as `o:p`). */
  predicate SelectorThrows(e: Element, matches: string -> Option<nat>)
  {
    || (e.id == "" && SelectorClasses(e) != [] && matches(ClassCandidate(e.tag, SelectorClasses(e))).None?)
    || (PositionReached(e, matches) && e.hasParent && matches(SiblingQuery(e.tag)).None?)
  }

  /** `buildSelector`: id, then a class combination that matches only this
      element, then role when the element has text, aria-label, the first
      data attribute, the position among same-tag siblings, and finally the
      bare tag.  `matches` gives `querySelectorAll(candidate).length`, or
      `None` when the candidate is not a valid selector (a class such as
      `md:flex`, `w-1/2` or `2xl`) and the call throws; whether a selector
      is valid does not depend on the element it is queried from.  `escape`
      is applied to the aria-label: `EscapeAsWritten` for the script as
      written, `Escape` for the corrected one. */
  function BuildSelector(e: Element, matches: string -> Option<nat>, escape: string -> string): (r: Option<string>)
    ensures r.None? <==> SelectorThrows(e, matches)
  {
    var classes := SelectorClasses(e);
    var dataAttrs := Filter(e.attributes, IsDataAttr);
    if e.id != "" then Some("#" + e.id)
    else if classes != [] && matches(ClassCandidate(e.tag, classes)).None? then None
    else if classes != [] && matches(ClassCandidate(e.tag, classes)) == Some(1) then
      Some(ClassCandidate(e.tag, classes))
    else if RoleText(e) then Some("[role=\"" + e.role.value + "\"]")
    else if Truthy(e.ariaLabel) then Some("[aria-label=\"" + escape(e.ariaLabel.value) + "\"]")
    else if dataAttrs != [] then Some("[" + dataAttrs[0].name + "=\"" + dataAttrs[0].value + "\"]")
    else if !e.hasParent then Some(e.tag)
    else if matches(SiblingQuery(e.tag)).None? then None
    else if e.nthOfType.Some? then Some(e.tag + ":nth-of-type(" + NatToString(e.nthOfType.value + 1) + ")")
    else Some(e.tag)
  }

  /** The aria-label fallback quotes the escaped label. */
  lemma AriaSelector(e: Element, matches: string -> Option<nat>, escape: string -> string)
    requires ClassMissed(e, matches) && !RoleText(e) && Truthy(e.ariaLabel)
    ensures BuildSelector(e, matches, escape) == Some("[aria-label=\"" + escape(e.ariaLabel.value) + "\"]")
  {
  }

  /** What CSS reads as the quoted value of an aria-label selector starts
      right after its opening quote. */
  lemma AriaQuoted(escaped: string)
    ensures |"[aria-label=\"" + escaped + "\"]"| >= 13
    ensures ("[aria-label=\"" + escaped + "\"]")[..13] == "[aria-label=\""
    ensures ("[aria-label=\"" + escaped + "\"]")[13..] == escaped + "\"" + "]"
  {
    var prefix := "[aria-label=\"";
    var quoted := escaped + "\"" + "]";
    assert prefix + escaped + "\"]" == prefix + quoted;
    assert (prefix + quoted)[|prefix|..] == quoted;
  }

  /** The quoted value of the corrected aria-label selector reads back as the label. */
  lemma AriaValueReadsBack(value: string)
    requires '\0' !in value
    ensures CssString(("[aria-label=\"" + Escape(value) + "\"]")[13..]) == Some((value, "]"))
  {
    AriaQuoted(Escape(value));
    EscapeReadsBack(value, "]");
  }

  /** The corrected script: the aria-label selector's value reads back as
      the label, whatever the label holds except NUL. */
  lemma CorrectedAriaReadsBack(e: Element, matches: string -> Option<nat>)
    requires ClassMissed(e, matches) && !RoleText(e) && Truthy(e.ariaLabel) && '\0' !in e.ariaLabel.value
    ensures BuildSelector(e, matches, Escape).Some?
    ensures BuildSelector(e, matches, Escape).value[..13] == "[aria-label=\""
    ensures CssString(BuildSelector(e, matches, Escape).value[13..]) == Some((e.ariaLabel.value, "]"))
  {
    AriaSelector(e, matches, Escape);
    AriaQuoted(Escape(e.ariaLabel.value));
    AriaValueReadsBack(e.ariaLabel.value);
  }

  /** The script as written: the aria-label selector's value reads back as
      the label when the label holds no backslash, newline character or NUL. */
  lemma AsWrittenAriaReadsBack(e: Element, matches: string -> Option<nat>)
    requires ClassMissed(e, matches) && !RoleText(e) && Truthy(e.ariaLabel)
    requires forall i :: 0 <= i < |e.ariaLabel.value| ==>
      e.ariaLabel.value[i] != '\\' && !CssNewline(e.ariaLabel.value[i]) && e.ariaLabel.value[i] != '\0'
    ensures BuildSelector(e, matches, EscapeAsWritten).Some?
    ensures BuildSelector(e, matches, EscapeAsWritten).value[..13] == "[aria-label=\""
    ensures CssString(BuildSelector(e, matches, EscapeAsWritten).value[13..]) == Some((e.ariaLabel.value, "]"))
  {
    AriaSelector(e, matches, EscapeAsWritten);
    AriaQuoted(EscapeAsWritten(e.ariaLabel.value));
    EscapeAsWrittenReadsBack(e.ariaLabel.value, "]");
  }

  /** The script as written, on an element whose aria-label is `a\`: CSS
      reads the selector's value as `a"]`, with no closing quote. */
  lemma AsWrittenAriaMisread(e: Element, matches: string -> Option<nat>)
    requires ClassMissed(e, matches) && !RoleText(e) && e.ariaLabel == Some("a\\")
    ensures BuildSelector(e, matches, EscapeAsWritten) == Some("[aria-label=\"a\\\"]")
    ensures CssString(BuildSelector(e, matches, EscapeAsWritten).value[13..]) == Some(("a\"]", ""))
  {
    TrailingBackslashMisread();
    AriaSelector(e, matches, EscapeAsWritten);
    AriaQuoted("a\\");
    assert "[aria-label=\"" + "a\\" + "\"]" == "[aria-label=\"a\\\"]";
    var v := BuildSelector(e, matches, EscapeAsWritten).value[13..];
    assert v == "a\\" + "\"" + "]";
    assert v == EscapeAsWritten("a\\") + "\"]";
  }

  /** The role fallback, for an element with some text. */
  lemma RoleSelector(e: Element, matches: string -> Option<nat>, escape: string -> string)
    requires ClassMissed(e, matches) && Truthy(e.role) && Trim(OrElse(e.innerText, "")) != ""
    ensures BuildSelector(e, matches, escape) == Some("[role=\"" + e.role.value + "\"]")
  {
    assert RoleText(e);
  }

  /** With no data attribute: the bare tag without a parent; otherwise the
      script throws when the sibling query is rejected, and else gives the
      position among same-tag siblings, or the bare tag when not found. */
  lemma PositionSelector(e: Element, matches: string -> Option<nat>, escape: string -> string)
    requires ClassMissed(e, matches) && !RoleText(e) && !Truthy(e.ariaLabel)
    requires forall k :: 0 <= k < |e.attributes| ==> !IsDataAttr(e.attributes[k])
    ensures !e.hasParent ==> BuildSelector(e, matches, escape) == Some(e.tag)
    ensures e.hasParent && matches(SiblingQuery(e.tag)).None? ==> BuildSelector(e, matches, escape).None?
    ensures e.hasParent && matches(SiblingQuery(e.tag)).Some? ==>
      BuildSelector(e, matches, escape) ==
        if e.nthOfType.Some? then Some(e.tag + ":nth-of-type(" + NatToString(e.nthOfType.value + 1) + ")")
        else Some(e.tag)
  {
    FilterNone(e.attributes, IsDataAttr);
  }

  /** The data-attribute fallback uses the first data attribute. */
  lemma DataAttrSelector(e: Element, matches: string -> Option<nat>, escape: string -> string, k: nat)
    requires ClassMissed(e, matches) && !RoleText(e) && !Truthy(e.ariaLabel)
    requires k < |e.attributes| && IsDataAttr(e.attributes[k])
    requires forall j :: 0 <= j < k ==> !IsDataAttr(e.attributes[j])
    ensures BuildSelector(e, matches, escape) == Some("[" + e.attributes[k].name + "=\"" + e.attributes[k].value + "\"]")
  {
    FilterHead(e.attributes, IsDataAttr, k);
  }

  /** The fallbacks in order, each under the failure of every earlier one. */
  lemma SelectorFallbacks(e: Element, matches: string -> Option<nat>, escape: string -> string)
    ensures e.id != "" ==> BuildSelector(e, matches, escape) == Some("#" + e.id)
    ensures e.id == "" && SelectorClasses(e) != []
            && matches(ClassCandidate(e.tag, SelectorClasses(e))) == Some(1)
            ==> BuildSelector(e, matches, escape) == Some(ClassCandidate(e.tag, SelectorClasses(e)))
    ensures ClassMissed(e, matches) && Truthy(e.role) && Trim(OrElse(e.innerText, "")) != ""
            ==> BuildSelector(e, matches, escape) == Some("[role=\"" + e.role.value + "\"]")
    ensures ClassMissed(e, matches) && !RoleText(e) && Truthy(e.ariaLabel)
            ==> BuildSelector(e, matches, escape) == Some("[aria-label=\"" + escape(e.ariaLabel.value) + "\"]")
    ensures forall k :: (ClassMissed(e, matches) && !RoleText(e) && !Truthy(e.ariaLabel)
              && 0 <= k < |e.attributes| && IsDataAttr(e.attributes[k])
              && (forall j :: 0 <= j < k ==> !IsDataAttr(e.attributes[j])))
              ==> BuildSelector(e, matches, escape) == Some("[" + e.attributes[k].name + "=\"" + e.attributes[k].value + "\"]")
    ensures ClassMissed(e, matches) && !RoleText(e) && !Truthy(e.ariaLabel)
            && (forall k :: 0 <= k < |e.attributes| ==> !IsDataAttr(e.attributes[k]))
            ==> && (!e.hasParent ==> BuildSelector(e, matches, escape) == Some(e.tag))
                && (e.hasParent && matches(SiblingQuery(e.tag)).None? ==> BuildSelector(e, matches, escape).None?)
                && (e.hasParent && matches(SiblingQuery(e.tag)).Some? ==>
                      BuildSelector(e, matches, escape) ==
                        if e.nthOfType.Some? then Some(e.tag + ":nth-of-type(" + NatToString(e.nthOfType.value + 1) + ")")
                        else Some(e.tag))
  {
    if ClassMissed(e, matches) && Truthy(e.role) && Trim(OrElse(e.innerText, "")) != "" {
      RoleSelector(e, matches, escape);
    }
    if ClassMissed(e, matches) && !RoleText(e) && Truthy(e.ariaLabel) {
      AriaSelector(e, matches, escape);
    }
    forall k | ClassMissed(e, matches) && !RoleText(e) && !Truthy(e.ariaLabel)
            && 0 <= k < |e.attributes| && IsDataAttr(e.attributes[k])
            && (forall j :: 0 <= j < k ==> !IsDataAttr(e.attributes[j]))
      ensures BuildSelector(e, matches, escape) == Some("[" + e.attributes[k].name + "=\"" + e.attributes[k].value + "\"]")
    {
      DataAttrSelector(e, matches, escape, k);
    }
    if ClassMissed(e, matches) && !RoleText(e) && !Truthy(e.ariaLabel)
       && forall k :: 0 <= k < |e.attributes| ==> !IsDataAttr(e.attributes[k]) {
      PositionSelector(e, matches, escape);
    }
  }

  // ---------------------------------------------------------------------
  // Collection, sort, re-index, size guard
  // ---------------------------------------------------------------------

  datatype Interaction = Interaction(
    index: nat, kind: Kind, selector: string, text: string, expectedBehavior: string,
    rect: Rect, ariaExpanded: Option<string>, ariaHaspopup: Option<string>)

  datatype InteractionsResult = InteractionsResult(
    interactions: seq<Interaction>, count: nat, truncated: bool, originalCount: Option<nat>)

  function ElementId(e: Element): Handle { e.handle }

  /** Not zero-area, and neither above the page top nor beyond two viewports. */
  predicate Visible(innerHeight: int, e: Element)
  {
    !e.rect.ZeroArea() && !(e.rect.Bottom() < 0 || e.rect.y > innerHeight * 2)
  }

  function VisibleIn(innerHeight: int): Element -> bool
  {
    e => Visible(innerHeight, e)
  }

  /** The elements kept from the hits of the selector list, in order. */
  function Collected(groups: seq<seq<Element>>, innerHeight: int): seq<Element>
  {
    Dedup(Filter(Flatten(groups), VisibleIn(innerHeight)), ElementId)
  }

  /** The record pushed for an element, numbered `index`; `None` when
      `buildSelector` throws on it. */
  function Describe(e: Element, index: nat, matches: string -> Option<nat>, escape: string -> string)
    : Option<Interaction>
  {
    match BuildSelector(e, matches, escape)
    case None => None
    case Some(selector) =>
      var c := Classify(e);
      Some(Interaction(index, c.kind, selector,
        Take(Trim(OrElse(e.innerText, OrElse(e.ariaLabel, ""))), 50),
        c.expectedBehavior, e.rect, IfTruthy(e.ariaExpanded), IfTruthy(e.ariaHaspopup)))
  }

  /** `(Math.floor(y / 50), x)`: row buckets of 50 pixels, then left to right. */
  function RowKey(it: Interaction): Key
  {
    Key(it.rect.y / 50, it.rect.x)
  }

  /** The list with `index` rewritten to position + 1 and nothing else changed. */
  function Reindexed(items: seq<Interaction>): (r: seq<Interaction>)
    ensures |r| == |items|
    ensures forall i :: 0 <= i < |r| ==> r[i].index == i + 1 && r[i] == items[i].(index := i + 1)
  {
    seq(|items|, i requires 0 <= i < |items| => items[i].(index := i + 1))
  }

  /** `interactions.forEach((item, i) => item.index = i + 1)` */
  method Reindex(items: seq<Interaction>) returns (r: seq<Interaction>)
    ensures r == Reindexed(items)
  {
    r := items;
    for i := 0 to |r|
      invariant |r| == |items|
      invariant forall k :: 0 <= k < i ==> r[k] == items[k].(index := k + 1)
      invariant forall k :: i <= k < |r| ==> r[k] == items[k]
    {
      r := r[i := r[i].(index := i + 1)];
    }
  }

  /** Over budget: the first 40 interactions, flagged, with the full length
      recorded; `count` keeps the full length.  Otherwise nothing changes. */
  function Guard(result: InteractionsResult, size: nat): (r: InteractionsResult)
    ensures size <= Budget ==> r == result
    ensures r.count == result.count
    ensures size > Budget ==>
      && r.interactions <= result.interactions
      && |r.interactions| == (if |result.interactions| < 40 then |result.interactions| else 40)
      && r.truncated
      && r.originalCount == Some(|result.interactions|)
  {
    if size > Budget then
      result.(interactions := Take(result.interactions, 40), truncated := true,
              originalCount := Some(|result.interactions|))
    else result
  }

  function DescribeWith(matches: string -> Option<nat>, escape: string -> string)
    : (Element, nat) -> Option<Interaction>
  {
    (e: Element, index: nat) => Describe(e, index, matches, escape)
  }

  /** The records pushed for the collected elements, numbered from 1; `None`
      when `buildSelector` throws on one of them. */
  function Described(els: seq<Element>, matches: string -> Option<nat>, escape: string -> string)
    : Option<seq<Interaction>>
  {
    NumberedAll(els, DescribeWith(matches, escape))
  }

  /** The inventory before the size guard; `None` when the script throws. */
  function Unguarded(groups: seq<seq<Element>>, innerHeight: int, matches: string -> Option<nat>,
                     escape: string -> string): Option<InteractionsResult>
  {
    match Described(Collected(groups, innerHeight), matches, escape)
    case None => None
    case Some(described) =>
      var items := Reindexed(SortByKey(described, RowKey));
      Some(InteractionsResult(items, |items|, false, None))
  }

  /** The whole script: `None` when it throws.  `measure` gives the length of
      the serialized result; `escape` is the aria-label escape (the script
      as written with `EscapeAsWritten`, corrected with `Escape`). */
  method VerifyInteractions(groups: seq<seq<Element>>, innerHeight: int, matches: string -> Option<nat>,
                            escape: string -> string, measure: InteractionsResult -> nat)
    returns (result: Option<InteractionsResult>)
    ensures result == match Unguarded(groups, innerHeight, matches, escape)
                      case None => None
                      case Some(u) => Some(Guard(u, measure(u)))
  {
    var els := Collect(groups, ElementId, VisibleIn(innerHeight));
    var described := PushNumberedAll(els, DescribeWith(matches, escape));
    if described.None? {
      return None;
    }
    var interactions := SortByKey(described.value, RowKey);
    interactions := Reindex(interactions);
    var u := InteractionsResult(interactions, |interactions|, false, None);
    return Some(Guard(u, measure(u)));
  }

  /** The script throws exactly when `buildSelector` throws on some
      collected element: on its class candidate or on its sibling query. */
  lemma ThrowsExactly(groups: seq<seq<Element>>, innerHeight: int, matches: string -> Option<nat>,
                      escape: string -> string)
    ensures Unguarded(groups, innerHeight, matches, escape).None? <==>
            exists e :: e in Collected(groups, innerHeight) && SelectorThrows(e, matches)
  {
    var els := Collected(groups, innerHeight);
    if exists e :: e in els && SelectorThrows(e, matches) {
      var e :| e in els && SelectorThrows(e, matches);
      var i :| 0 <= i < |els| && els[i] == e;
      assert DescribeWith(matches, escape)(els[i], i + 1).None?;
    } else {
      forall i | 0 <= i < |els| ensures DescribeWith(matches, escape)(els[i], i + 1).Some? {
        assert els[i] in els;
      }
    }
  }

  /** Each collected element is kept once, is not zero-area, and lies between
      the page top and two viewport heights. */
  lemma CollectedProperties(groups: seq<seq<Element>>, innerHeight: int)
    ensures var els := Collected(groups, innerHeight);
      && (forall i, j :: 0 <= i < j < |els| ==> els[i].handle != els[j].handle)
      && (forall e :: e in els ==>
            !e.rect.ZeroArea() && e.rect.Bottom() >= 0 && e.rect.y <= 2 * innerHeight)
  {
    var kept := Filter(Flatten(groups), VisibleIn(innerHeight));
    DedupDistinct(kept, ElementId);
    assert forall i, j :: 0 <= i < j < |Dedup(kept, ElementId)| ==>
      ElementId(Dedup(kept, ElementId)[i]) != ElementId(Dedup(kept, ElementId)[j]);
    DedupSubset(kept, ElementId);
  }

  /** When the script does not throw, the unguarded inventory is a reordering
      of the described elements that keeps equal row keys in collection
      order, ordered by row bucket then x, numbered 1..n, and `count` is its
      length. */
  lemma UnguardedProperties(groups: seq<seq<Element>>, innerHeight: int, matches: string -> Option<nat>,
                            escape: string -> string)
    ensures var u := Unguarded(groups, innerHeight, matches, escape);
      var els := Collected(groups, innerHeight);
      var d := Described(els, matches, escape);
      u.Some? ==>
      && d.Some?
      && u.value.count == |u.value.interactions| == |els|
      && (forall i :: 0 <= i < |u.value.interactions| ==> u.value.interactions[i].index == i + 1)
      && (forall i, j :: 0 <= i < j < |u.value.interactions| ==>
            KeyLe(RowKey(u.value.interactions[i]), RowKey(u.value.interactions[j])))
      && (exists s :: && multiset(s) == multiset(d.value)
                      && (forall k :: Filter(s, HasKey(RowKey, k)) == Filter(d.value, HasKey(RowKey, k)))
                      && u.value.interactions == Reindexed(s))
      && !u.value.truncated && u.value.originalCount.None?
  {
    var els := Collected(groups, innerHeight);
    var d := Described(els, matches, escape);
    if d.Some? {
      var sorted := SortByKey(d.value, RowKey);
      SortByKeySorted(d.value, RowKey);
      forall k ensures Filter(sorted, HasKey(RowKey, k)) == Filter(d.value, HasKey(RowKey, k)) {
        SortByKeyStable(d.value, RowKey, k);
      }
      var items := Reindexed(sorted);
      forall i | 0 <= i < |items| ensures RowKey(items[i]) == RowKey(sorted[i]) {}
    }
  }
}
