/**
 * Helpers shared by the comment-triggered commands (node/eslint-config/presets/command/utils.ts):
 * a matcher that looks for a command word in a comment, and the source location a command
 * report points at.
 */
module CommentCommands {
  import opened Wrappers
  import opened Strings
  import opened Collections
  import opened Foreign
  import LibString

  /** ESLint positions: 1-based lines, 0-based columns. */
  datatype Position = Position(line: int, column: int)

  datatype SourceLocation = SourceLocation(start: Position, end: Position)

  /** The token type of a comment; any other token type is carried by name. */
  datatype TokenType = Block | Line | OtherToken(name: string)

  /** A comment token: `value` is the text between the delimiters. */
  datatype Comment = Comment(kind: TokenType, value: string, loc: SourceLocation)

  /** The width of the delimiter `//` that precedes a line comment's value. */
  const DelimiterWidth: nat := 2

  /** The source of the command regex: the command preceded and followed by a boundary. */
  function CommandRegexSource(command: string): string {
    "(?:^|\\b|\\s)" + command + "(?:\\b|\\s|$)"
  }

  /** `new RegExp(source, 'v')`, `None` where the constructor throws. */
  function CreateCommandMatcher(e: RegexEngine, command: string): (r: Option<Regex>)
    ensures r.Some? <==> e.compiles(Regex(CommandRegexSource(command), "v"))
    ensures r.Some? ==> r.value == Regex(CommandRegexSource(command), "v")
  {
    var regex := Regex(CommandRegexSource(command), "v");
    if e.compiles(regex) then Some(regex) else None
  }

  /** A string with no regex syntax character: as a pattern it matches only itself. */
  predicate IsRegexLiteral(s: string) {
    forall i :: 0 <= i < |s| ==> s[i] !in "\\^$.*+?()[]{}|/"
  }

  /** `\w` without the `i` flag: ASCII letters, digits and `_`. */
  predicate IsWordChar(c: char) {
    IsAsciiLetter(c) || IsAsciiDigit(c) || c == '_'
  }

  /** `\b` at position k: a word character on exactly one side. */
  predicate IsWordBoundary(t: string, k: nat)
    requires k <= |t|
  {
    (k > 0 && IsWordChar(t[k - 1])) != (k < |t| && IsWordChar(t[k]))
  }

  /**
   * `command` occurs at position i with `(?:^|\b|\s)` before it and `(?:\b|\s|$)` after it:
   * at the start, at a word boundary or after whitespace, and at the end, at a word
   * boundary or before whitespace (`\s` is the set `trim` strips).
   */
  predicate OccursDelimited(t: string, command: string, i: nat) {
    && OccursAt(t, command, i)
    && (i == 0 || IsWordBoundary(t, i) || IsTrimmable(t[i - 1]))
    && (i + |command| == |t| || IsWordBoundary(t, i + |command|) || IsTrimmable(t[i + |command|]))
  }

  /**
   * The engine reads the boundary-wrapped source of a literal command as written: it
   * compiles with flag `v` and accepts exactly the texts holding a delimited occurrence.
   */
  ghost predicate CommandRegexIsDelimitedSearch(e: RegexEngine) {
    && (forall command :: IsRegexLiteral(command) ==> e.compiles(Regex(CommandRegexSource(command), "v")))
    && (forall command, text :: IsRegexLiteral(command) ==>
          (e.test(Regex(CommandRegexSource(command), "v"), text) <==> exists i: nat :: OccursDelimited(text, command, i)))
  }

  /** The returned matcher: the command regex run against the trimmed comment value. */
  function MatchComment(e: RegexEngine, matcher: Regex, comment: Comment): bool {
    e.test(matcher, Trim(comment.value))
  }

  /** Blank text around the comment value never changes whether the command matches. */
  lemma MatchIgnoresPadding(e: RegexEngine, matcher: Regex, comment: Comment, before: string, after: string)
    requires IsBlank(before) && IsBlank(after)
    ensures MatchComment(e, matcher, comment.(value := before + comment.value + after))
         == MatchComment(e, matcher, comment)
  {
    TrimIgnoresPadding(before, comment.value, after);
  }

  /**
   * For a literal command, the matcher exists and accepts a comment exactly when the
   * trimmed value holds the command delimited by the start, the end, whitespace or a
   * word boundary on each side.
   */
  lemma CommandMatcherSpec(e: RegexEngine, command: string, comment: Comment)
    requires CommandRegexIsDelimitedSearch(e) && IsRegexLiteral(command)
    ensures CreateCommandMatcher(e, command).Some?
    ensures MatchComment(e, CreateCommandMatcher(e, command).value, comment)
      <==> exists i: nat :: OccursDelimited(Trim(comment.value), command, i)
  {
  }

  /** The index of the last comment line that contains the command. */
  function CommandLineIndex(command: string, value: string): (r: Option<nat>)
    ensures r.Some? ==> r.value < |LibString.SplitLines(value)|
  {
    FindLastIndex(LibString.SplitLines(value), (line: string) => Includes(line, command))
  }

  /**
   * `getCommandLoc`: the span of the command's first occurrence on the last comment line
   * containing it, or the comment's own location when no line does. Columns and
   * `command.length` count UTF-16 code units. Since text here is a sequence of Unicode
   * scalar values and UTF-16 is self-synchronizing, a code-unit match of `indexOf` starts
   * on a character boundary, so its index is the UTF-16 length of the characters before
   * the first character match.
   */
  function GetCommandLoc(command: string, comment: Comment): (r: SourceLocation)
    ensures r == comment.loc || (r.start.line == r.end.line && r.end.column - r.start.column == Utf16Length(command))
  {
    var lines := LibString.SplitLines(comment.value);
    match CommandLineIndex(command, comment.value)
    case None => comment.loc
    case Some(index) =>
      match IndexOf(lines[index], command)
      case None => assert false; comment.loc
      case Some(offset) =>
        var line := comment.loc.start.line + index;
        var columnOffset := Utf16Length(lines[index][..offset]);
        var column := if index == 0 then comment.loc.start.column + DelimiterWidth + columnOffset else columnOffset;
        SourceLocation(Position(line, column), Position(line, column + Utf16Length(command)))
  }

  /** When no line of the comment contains the command, the comment's location is returned. */
  lemma GetCommandLocFallback(command: string, comment: Comment)
    requires forall j :: 0 <= j < |LibString.SplitLines(comment.value)| ==>
      !Includes(LibString.SplitLines(comment.value)[j], command)
    ensures GetCommandLoc(command, comment) == comment.loc
  {
  }

  /**
   * With `index` the last comment line containing the command, the reported span lies on
   * line `loc.start.line + index` and starts at the command's first occurrence on that
   * line, measured in UTF-16 code units and shifted past the comment start and its
   * delimiter on the first line.
   */
  lemma GetCommandLocTargetsLastLine(command: string, comment: Comment, index: nat, offset: nat)
    requires var lines := LibString.SplitLines(comment.value);
      && index < |lines| && OccursAt(lines[index], command, offset)
      && (forall k: nat :: k < offset ==> !OccursAt(lines[index], command, k))
      && (forall j :: index < j < |lines| ==> !Includes(lines[j], command))
    ensures var r := GetCommandLoc(command, comment);
      && r.start.line == r.end.line == comment.loc.start.line + index
      && r.start.column == (if index == 0 then comment.loc.start.column + DelimiterWidth else 0)
                           + Utf16Length(LibString.SplitLines(comment.value)[index][..offset])
      && r.end.column == r.start.column + Utf16Length(command)
  {
    var lines := LibString.SplitLines(comment.value);
    CommandLineIndexIs(command, comment.value, index);
    IndexOfIs(lines[index], command, offset);
  }

  lemma CommandLineIndexIs(command: string, value: string, index: nat)
    requires var lines := LibString.SplitLines(value);
      && index < |lines| && Includes(lines[index], command)
      && (forall j :: index < j < |lines| ==> !Includes(lines[j], command))
    ensures CommandLineIndex(command, value) == Some(index)
  {
    var found := CommandLineIndex(command, value);
    assert found.Some?;
  }

  lemma IndexOfIs(s: string, sub: string, offset: nat)
    requires OccursAt(s, sub, offset) && forall k: nat :: k < offset ==> !OccursAt(s, sub, k)
    ensures IndexOf(s, sub) == Some(offset)
  {
  }

  /** On the first line, a character outside the Basic Multilingual Plane before the command counts twice. */
  lemma AstralCharacterCountsTwice(loc: SourceLocation)
    ensures GetCommandLoc("@cmd", Comment(Line, " \U{1F600} @cmd", loc)).start.column == loc.start.column + 6
  {
    var value := " \U{1F600} @cmd";
    assert forall j :: 0 <= j < |value| ==> !LibString.IsLineBreakChar(value[j]);
    assert LibString.SplitLines(value) == [value];
    assert IndexOf(value, "@cmd") == Some(3) by {
      IndexOfIs(value, "@cmd", 3);
    }
    var before := value[..3];
    assert before == [' ', '\U{1F600}', ' '];
    var space, emoji: string := [' '], ['\U{1F600}'];
    assert [space[0]] == space && Utf16Length(space) == 1;
    assert Utf16Length(emoji) == 2 by {
      assert emoji[..0] == [];
    }
    assert before == space + emoji + space;
    Utf16LengthAppend(space, emoji);
    Utf16LengthAppend(space + emoji, space);
  }
}
