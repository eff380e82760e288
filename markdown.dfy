/**
 * `renderMarkdown` of the chat panel (src/components/auth/AIAssistant.tsx:142-158):
 * the text is split at line feeds, each line gets its bold and italic
 * markers replaced, and each becomes a list item, a paragraph or a line
 * break; the fragments are concatenated in order.
 *
 * The two global regular expressions (a lazy `(.*?)` between two `**`,
 * then between two `*`) are written out as scanners with the same
 * matching: at each position a
 * match is tried, the closing marker is the first one after the opening
 * marker, and `.` does not cross a line terminator.
 */
module Markdown {
  import opened Wrappers
  import opened JsText

  /** The characters `.` does not match in a JavaScript regular expression. */
  predicate IsLineTerminator(c: char) {
    c == '\n' || c == '\r' || c == '\U{2028}' || c == '\U{2029}'
  }

  /**
   * Where the lazy `(.*?)` ends: the first position of `t` at which `delim`
   * starts, provided no line terminator comes before it.
   */
  function FindClose(t: string, delim: string): (r: Option<nat>)
    ensures r.Some? ==> r.value + |delim| <= |t| && t[r.value..r.value + |delim|] == delim
    decreases |t|
  {
    if StartsWith(t, delim) then Some(0)
    else if t == [] || IsLineTerminator(t[0]) then None
    else match FindClose(t[1..], delim)
      case Some(k) => Some(k + 1)
      case None => None
  }

  /**
   * The global `replace` of a lazy `(.*?)` between two markers `D` by
   * `open + "$1" + close`: a match
   * is tried at every position from left to right; a match is replaced and
   * scanning resumes after it, otherwise the character is kept.
   */
  function Replace(s: string, delim: string, open: string, close: string): string
    requires delim != []
    decreases |s|
  {
    if s == [] then []
    else if StartsWith(s, delim) then
      var t := s[|delim|..];
      match FindClose(t, delim)
      case Some(k) => open + t[..k] + close + Replace(t[k + |delim|..], delim, open, close)
      case None => [s[0]] + Replace(s[1..], delim, open, close)
    else [s[0]] + Replace(s[1..], delim, open, close)
  }

  /** Line 148: `**text**` becomes `<strong>text</strong>`. */
  function Bold(s: string): string {
    Replace(s, "**", "<strong>", "</strong>")
  }

  /** Line 150: `*text*` becomes `<em>text</em>`, on the line after the bold pass. */
  function Italic(s: string): string {
    Replace(s, "*", "<em>", "</em>")
  }

  /** Both substitutions, bold first. */
  function Emphasize(line: string): string {
    Italic(Bold(line))
  }

  /** Lines 152-156: a list item, a paragraph, or a line break for an empty line; `key` is the line's index. */
  function RenderLine(index: nat, raw: string): string {
    var line := Emphasize(raw);
    if StartsWith(line, "- ") || StartsWith(line, "• ") then
      "<li key=\"" + NatToString(index) + "\" class=\"ml-4\">" + line[2..] + "</li>"
    else if line != [] then
      "<p key=\"" + NatToString(index) + "\">" + line + "</p>"
    else
      "<br/>"
  }

  /** The fragments of `lines`, numbered from `first`, concatenated in order. */
  function RenderLines(lines: seq<string>, first: nat): string
    decreases |lines|
  {
    if lines == [] then [] else RenderLine(first, lines[0]) + RenderLines(lines[1..], first + 1)
  }

  /** `renderMarkdown(content)` (lines 142-158). */
  function RenderMarkdown(content: string): string {
    RenderLines(Split(content, '\n'), 0)
  }

  // ---------------------------------------------------------------------
  // Properties of the scanners.
  // ---------------------------------------------------------------------

  /** Text without the marker's character comes out unchanged. */
  lemma {:induction false} ReplaceWithoutMarker(s: string, delim: string, open: string, close: string)
    requires delim != [] && delim[0] !in s
    ensures Replace(s, delim, open, close) == s
    decreases |s|
  {
    if s != [] {
      assert s[0] != delim[0];
      assert !StartsWith(s, delim);
      ReplaceWithoutMarker(s[1..], delim, open, close);
      assert [s[0]] + s[1..] == s;
    }
  }

  /** The replacement is empty exactly when the line is: every step emits at least one character. */
  lemma ReplaceEmptyIff(s: string, delim: string, open: string, close: string)
    requires delim != [] && open != []
    ensures Replace(s, delim, open, close) == [] <==> s == []
  {
    if s != [] && StartsWith(s, delim) {
      var t := s[|delim|..];
      match FindClose(t, delim)
      case Some(k) =>
        assert |open + t[..k] + close + Replace(t[k + |delim|..], delim, open, close)| >= |open|;
      case None =>
    }
  }

  /** The closing marker right after plain text is found at its end. */
  lemma {:induction false} FindCloseAfterPlain(t: string, delim: string, rest: string)
    requires delim != [] && delim[0] !in t
    requires forall i :: 0 <= i < |t| ==> !IsLineTerminator(t[i])
    ensures FindClose(t + delim + rest, delim) == Some(|t|)
    decreases |t|
  {
    var s := t + delim + rest;
    if t == [] {
      assert s == delim + rest;
      assert s[..|delim|] == delim;
    } else {
      assert s[0] == t[0] && s[0] != delim[0];
      assert !StartsWith(s, delim);
      assert s[1..] == t[1..] + delim + rest;
      FindCloseAfterPlain(t[1..], delim, rest);
    }
  }

  /** A marked span of plain text is replaced by the tags around the same text; what follows is scanned on. */
  lemma MarkedSpan(t: string, delim: string, open: string, close: string, rest: string)
    requires delim != [] && delim[0] !in t
    requires forall i :: 0 <= i < |t| ==> !IsLineTerminator(t[i])
    ensures Replace(delim + t + delim + rest, delim, open, close) ==
            open + t + close + Replace(rest, delim, open, close)
  {
    var s := delim + t + delim + rest;
    assert s[..|delim|] == delim;
    assert s[|delim|..] == t + delim + rest;
    FindCloseAfterPlain(t, delim, rest);
    var u := t + delim + rest;
    assert u[..|t|] == t;
    assert u[|t| + |delim|..] == rest;
  }

  /** `**text**` renders bold, with no italic pass left to apply. */
  lemma BoldSpan(t: string)
    requires '*' !in t
    requires forall i :: 0 <= i < |t| ==> !IsLineTerminator(t[i])
    ensures Emphasize("**" + t + "**") == "<strong>" + t + "</strong>"
  {
    MarkedSpan(t, "**", "<strong>", "</strong>", []);
    assert "**" + t + "**" + [] == "**" + t + "**";
    assert Replace([], "**", "<strong>", "</strong>") == [];
    var b := "<strong>" + t + "</strong>";
    assert "<strong>" + t + "</strong>" + [] == b;
    ReplaceWithoutMarker(b, "*", "<em>", "</em>");
  }

  /** `*text*` renders italic. */
  lemma ItalicSpan(t: string)
    requires '*' !in t
    requires forall i :: 0 <= i < |t| ==> !IsLineTerminator(t[i])
    ensures Emphasize("*" + t + "*") == "<em>" + t + "</em>"
  {
    var s := "*" + t + "*";
    ReplaceWithoutMarker(t, "**", "<strong>", "</strong>");
    BoldOfSingleStars(t);
    MarkedSpan(t, "*", "<em>", "</em>", []);
    assert "*" + t + "*" + [] == s;
    assert "<em>" + t + "</em>" + [] == "<em>" + t + "</em>";
  }

  /** The bold pass leaves a single-starred span alone. */
  lemma BoldOfSingleStars(t: string)
    requires '*' !in t
    ensures Bold("*" + t + "*") == "*" + t + "*"
  {
    var s := "*" + t + "*";
    assert s[0] == '*' && s[1..] == t + "*";
    if t == [] {
      assert s == "**";
      assert s[2..] == [];
      assert FindClose([], "**") == None;
      assert s[1..] == "*";
      assert !StartsWith("*", "**");
      assert Replace("*"[1..], "**", "<strong>", "</strong>") == [];
    } else {
      assert s[1] == t[0] && t[0] != '*';
      assert !StartsWith(s, "**");
      BoldOfPlainThenStar(t);
    }
  }

  /** Plain text followed by one star passes through the bold pass. */
  lemma {:induction false} BoldOfPlainThenStar(t: string)
    requires '*' !in t
    ensures Bold(t + "*") == t + "*"
    decreases |t|
  {
    var s := t + "*";
    if t == [] {
      assert s == "*" && !StartsWith(s, "**");
      assert s[1..] == [];
      assert Replace(s, "**", "<strong>", "</strong>") == [s[0]] + [];
    } else {
      assert s[0] == t[0] && s[0] != '*';
      assert !StartsWith(s, "**");
      assert s[1..] == t[1..] + "*";
      BoldOfPlainThenStar(t[1..]);
    }
  }

  /**
   * An unclosed `**` is not bold: the bold pass keeps it, and the italic
   * pass then reads its two stars as an empty italic span.
   */
  lemma UnclosedBoldBecomesEmptyItalic(t: string)
    requires '*' !in t
    ensures Emphasize("**" + t) == "<em></em>" + t
  {
    var s := "**" + t;
    var u := "*" + t;
    assert s[2..] == t && s[1..] == u && s[0] == '*';
    FindCloseMissing(t, "**");
    assert Replace(s, "**", "<strong>", "</strong>") == [s[0]] + Replace(u, "**", "<strong>", "</strong>");
    assert u[1..] == t && u[0] == '*';
    if t != [] {
      assert u[1] == t[0];
    }
    assert !StartsWith(u, "**");
    assert Replace(u, "**", "<strong>", "</strong>") == [u[0]] + Replace(t, "**", "<strong>", "</strong>");
    ReplaceWithoutMarker(t, "**", "<strong>", "</strong>");
    assert [s[0]] + ([u[0]] + t) == s;
    assert Bold(s) == s;
    assert FindClose(u, "*") == Some(0);
    assert u[0 + 1..] == t && u[..0] == [];
    ReplaceWithoutMarker(t, "*", "<em>", "</em>");
    assert Replace(s, "*", "<em>", "</em>") == "<em>" + u[..0] + "</em>" + Replace(u[0 + 1..], "*", "<em>", "</em>");
    assert "<em>" + [] + "</em>" == "<em></em>";
  }

  /** No line terminator occurs in `t` before position `j`: `.` can reach `j`. */
  predicate LineContinues(t: string, j: int) {
    0 <= j <= |t| && forall m :: 0 <= m < j ==> !IsLineTerminator(t[m])
  }

  /** Shifting a position by the first character of `s`. */
  lemma OccursAtTail(t: string, sub: string, j: int)
    requires t != [] && 1 <= j
    ensures OccursAt(t, sub, j) <==> OccursAt(t[1..], sub, j - 1)
  {
    if 0 <= j - 1 <= |t[1..]| - |sub| {
      assert t[1..][j - 1..j - 1 + |sub|] == t[j..j + |sub|];
    }
  }

  /**
   * The lazy match is the first one: a found closing marker is the first
   * occurrence of the marker and no line terminator comes before it; when
   * none is found, every occurrence lies beyond a line terminator.
   */
  lemma {:induction false} FindCloseIsFirst(t: string, delim: string)
    requires delim != []
    ensures match FindClose(t, delim)
            case Some(k) =>
              OccursAt(t, delim, k) && LineContinues(t, k) &&
              forall j :: 0 <= j < k ==> !OccursAt(t, delim, j)
            case None => forall j :: LineContinues(t, j) ==> !OccursAt(t, delim, j)
    decreases |t|
  {
    if StartsWith(t, delim) {
      assert OccursAt(t, delim, 0);
    } else if t == [] || IsLineTerminator(t[0]) {
      forall j | LineContinues(t, j)
        ensures !OccursAt(t, delim, j)
      {
        assert j == 0;
      }
    } else {
      FindCloseIsFirst(t[1..], delim);
      match FindClose(t[1..], delim)
      case Some(k) =>
        OccursAtTail(t, delim, k + 1);
        forall j | 0 <= j < k + 1
          ensures !OccursAt(t, delim, j)
        {
          if j > 0 {
            OccursAtTail(t, delim, j);
          }
        }
        forall m | 0 <= m < k + 1
          ensures !IsLineTerminator(t[m])
        {
          if m > 0 {
            assert t[m] == t[1..][m - 1];
          }
        }
      case None =>
        forall j | LineContinues(t, j)
          ensures !OccursAt(t, delim, j)
        {
          if j > 0 {
            OccursAtTail(t, delim, j);
            forall m | 0 <= m < j - 1
              ensures !IsLineTerminator(t[1..][m])
            {
              assert t[1..][m] == t[m + 1];
            }
            assert LineContinues(t[1..], j - 1);
          }
        }
    }
  }

  /** Without the marker's first character in `t`, no closing marker is found. */
  lemma {:induction false} FindCloseMissing(t: string, delim: string)
    requires delim != [] && delim[0] !in t
    ensures FindClose(t, delim) == None
    decreases |t|
  {
    if t != [] {
      assert t[0] != delim[0];
      FindCloseMissing(t[1..], delim);
    }
  }

  /** Emphasis never turns a non-empty line into an empty one, nor the reverse. */
  lemma EmphasizeEmptyIff(line: string)
    ensures Emphasize(line) == [] <==> line == []
  {
    ReplaceEmptyIff(line, "**", "<strong>", "</strong>");
    ReplaceEmptyIff(Bold(line), "*", "<em>", "</em>");
  }

  // ---------------------------------------------------------------------
  // Properties of the line classification and of the whole rendering.
  // ---------------------------------------------------------------------

  /** An originally empty line, and only that, is a line break; a line without markers is kept as written. */
  lemma RenderLineKinds(index: nat, raw: string)
    ensures raw == [] <==> RenderLine(index, raw) == "<br/>"
    ensures '*' !in raw && raw != [] && !StartsWith(raw, "- ") && !StartsWith(raw, "• ") ==>
            RenderLine(index, raw) == "<p key=\"" + NatToString(index) + "\">" + raw + "</p>"
    ensures '*' !in raw && (StartsWith(raw, "- ") || StartsWith(raw, "• ")) ==>
            RenderLine(index, raw) == "<li key=\"" + NatToString(index) + "\" class=\"ml-4\">" + raw[2..] + "</li>"
  {
    EmphasizeEmptyIff(raw);
    var line := Emphasize(raw);
    if line != [] {
      var frag := RenderLine(index, raw);
      if StartsWith(line, "- ") || StartsWith(line, "• ") {
        assert frag[0] == '<' && frag[1] == 'l';
      } else {
        assert frag[0] == '<' && frag[1] == 'p';
      }
      assert "<br/>"[1] == 'b';
    }
    if '*' !in raw {
      ReplaceWithoutMarker(raw, "**", "<strong>", "</strong>");
      ReplaceWithoutMarker(raw, "*", "<em>", "</em>");
    }
  }

  /** A character that cannot open a marker is copied, and scanning goes on after it. */
  lemma ReplaceSkipsPlainHead(p: char, s: string, delim: string, open: string, close: string)
    requires delim != [] && p != delim[0]
    ensures Replace([p] + s, delim, open, close) == [p] + Replace(s, delim, open, close)
  {
    assert ([p] + s)[0] == p && ([p] + s)[1..] == s;
  }

  /** A replacement of a non-empty text starts with the text's first character or with the opening tag. */
  lemma ReplaceHead(s: string, delim: string, open: string, close: string)
    requires delim != [] && open != [] && s != []
    ensures var r := Replace(s, delim, open, close);
      r != [] && (r[0] == s[0] || r[0] == open[0])
  {
    if StartsWith(s, delim) {
      var t := s[|delim|..];
      match FindClose(t, delim)
      case Some(k) =>
        var r := open + t[..k] + close + Replace(t[k + |delim|..], delim, open, close);
        assert r[0] == open[0];
      case None =>
    }
  }

  /** Emphasis keeps a leading character other than a star and works on the rest. */
  lemma EmphasizeSkipsPlainHead(p: char, s: string)
    requires p != '*'
    ensures Emphasize([p] + s) == [p] + Emphasize(s)
  {
    ReplaceSkipsPlainHead(p, s, "**", "<strong>", "</strong>");
    ReplaceSkipsPlainHead(p, Bold(s), "*", "<em>", "</em>");
  }

  /** An emphasized non-empty line starts with the line's first character or with `<`. */
  lemma EmphasizeHead(s: string)
    requires s != []
    ensures Emphasize(s) != [] && (Emphasize(s)[0] == s[0] || Emphasize(s)[0] == '<')
  {
    ReplaceHead(s, "**", "<strong>", "</strong>");
    ReplaceHead(Bold(s), "*", "<em>", "</em>");
  }

  /**
   * Every line is classified by how it was written, whatever markers it
   * holds: a line written with a `- ` or `• ` bullet is the list item of its
   * emphasized text after the bullet, and any other non-empty line is the
   * paragraph of its emphasized text.
   */
  lemma RenderLineClassified(index: nat, raw: string)
    ensures StartsWith(raw, "- ") || StartsWith(raw, "• ") ==>
            RenderLine(index, raw) == "<li key=\"" + NatToString(index) + "\" class=\"ml-4\">" + Emphasize(raw[2..]) + "</li>"
    ensures raw != [] && !StartsWith(raw, "- ") && !StartsWith(raw, "• ") ==>
            RenderLine(index, raw) == "<p key=\"" + NatToString(index) + "\">" + Emphasize(raw) + "</p>"
  {
    var line := Emphasize(raw);
    if StartsWith(raw, "- ") || StartsWith(raw, "• ") {
      assert raw == [raw[0]] + ([raw[1]] + raw[2..]);
      EmphasizeSkipsPlainHead(raw[1], raw[2..]);
      EmphasizeSkipsPlainHead(raw[0], [raw[1]] + raw[2..]);
      assert line == [raw[0], raw[1]] + Emphasize(raw[2..]);
      assert line[..2] == raw[..2] && line[2..] == Emphasize(raw[2..]);
    } else if raw != [] {
      EmphasizeEmptyIff(raw);
      if raw[0] == '-' || raw[0] == '•' {
        assert raw == [raw[0]] + raw[1..];
        EmphasizeSkipsPlainHead(raw[0], raw[1..]);
        if raw[1..] != [] {
          EmphasizeHead(raw[1..]);
          assert raw[1..][0] == raw[1] && raw[1] != ' ';
          assert line[1] == Emphasize(raw[1..])[0];
        }
      } else {
        EmphasizeHead(raw);
      }
      assert !StartsWith(line, "- ") && !StartsWith(line, "• ");
    }
  }

  /** The fragments come out in line order: adding a line at the end adds its fragment at the end. */
  lemma {:induction false} RenderLinesSnoc(lines: seq<string>, first: nat, last: string)
    ensures RenderLines(lines + [last], first) == RenderLines(lines, first) + RenderLine(first + |lines|, last)
    decreases |lines|
  {
    if lines == [] {
      assert [] + [last] == [last];
      assert RenderLines([last], first) == RenderLine(first, last) + RenderLines([], first + 1);
    } else {
      assert (lines + [last])[0] == lines[0];
      assert (lines + [last])[1..] == lines[1..] + [last];
      RenderLinesSnoc(lines[1..], first + 1, last);
    }
  }

  /** A text without line feeds is one line, rendered as line 0. */
  lemma SingleLine(content: string)
    requires '\n' !in content
    ensures RenderMarkdown(content) == RenderLine(0, content)
  {
    IndexOfFindsFirst(content, '\n');
    assert Split(content, '\n') == [content];
    assert RenderLines([content], 0) == RenderLine(0, content) + RenderLines([], 1);
  }

  /** The first line is rendered as line 0, and the rest are numbered on from 1. */
  lemma FirstLineRendered(raw: string, rest: string)
    requires '\n' !in raw
    ensures RenderMarkdown(raw + "\n" + rest) == RenderLine(0, raw) + RenderLines(Split(rest, '\n'), 1)
  {
    var s := raw + "\n" + rest;
    IndexOfFirst(raw, '\n', rest);
    assert s == raw + ['\n'] + rest;
    SplitAtFirst(s, '\n');
    var parts := Split(s, '\n');
    assert parts[0] == raw && parts[1..] == Split(rest, '\n');
  }
}
