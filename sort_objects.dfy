/**
 * The `perfectionist-sort-objects` comment command
 * (eslint-config/presets/command/perfectionist-sort-objects.ts): a comment
 * `@perfectionist-sort-objects` above an object asks for its properties to be sorted.
 * The sorting itself is ESLint's `Linter.verifyAndFix` and is a parameter here; what is
 * modelled is how a comment is recognised, which node is sorted, and when a report is made.
 */
module SortObjectsCommand {
  import opened Wrappers
  import opened Strings
  import opened Foreign
  import opened CommentCommands

  const Command: string := "@perfectionist-sort-objects"
  const TemporaryVariablePrefix: string := "const unsortedObject = "
  const UnsortedMessage: string := "Object properties are not sorted."
  const NotFoundMessage: string := "Unable to find object to sort."

  datatype MatchError =
    | UnexpectedCommentType(comment: Comment)
    | InvalidCommandRegex(source: string)

  /** The regex source `matchCommand` builds for each comment type. */
  function CommandRegexSourceFor(command: string, kind: TokenType): (r: Option<string>)
    ensures r.Some? <==> kind.Block? || kind.Line?
  {
    match kind
    case Block => Some("(?:\\b|\\s)" + command + "(?:\\b|\\s|$)")
    case Line => Some(AnchoredSource(command))
    case OtherToken(_) => None
  }

  /**
   * `matchCommand`: the flagless regex for the comment's type, run against the trimmed
   * value; an unexpected type or a regex the constructor rejects throws.
   */
  function MatchCommand(e: RegexEngine, command: string, comment: Comment): (r: Result<bool, MatchError>)
    ensures comment.kind.OtherToken? <==> r == Failure(UnexpectedCommentType(comment))
    ensures r.Success? ==> r.value == e.test(Regex(CommandRegexSourceFor(command, comment.kind).value, []), Trim(comment.value))
  {
    match CommandRegexSourceFor(command, comment.kind)
    case None => Failure(UnexpectedCommentType(comment))
    case Some(source) =>
      if e.compiles(Regex(source, [])) then Success(e.test(Regex(source, []), Trim(comment.value)))
      else Failure(InvalidCommandRegex(source))
  }

  /** `^command$`. */
  function AnchoredSource(command: string): string {
    "^" + command + "$"
  }

  /**
   * The engine treats an anchored literal `^lit$` as the literal itself: it compiles and
   * accepts exactly the text equal to `lit`.
   */
  ghost predicate AnchoredLiteralsAreExact(e: RegexEngine) {
    forall lit, text :: IsRegexLiteral(lit) ==>
      e.compiles(Regex(AnchoredSource(lit), [])) && (e.test(Regex(AnchoredSource(lit), []), text) <==> text == lit)
  }

  /** The engine assumption for one literal and one text. */
  lemma AnchoredLiteral(e: RegexEngine, lit: string, text: string)
    requires AnchoredLiteralsAreExact(e) && IsRegexLiteral(lit)
    ensures e.compiles(Regex(AnchoredSource(lit), []))
    ensures e.test(Regex(AnchoredSource(lit), []), text) <==> text == lit
  {
  }

  /**
   * A line comment carries the command exactly when its trimmed value is the command:
   * `// @perfectionist-sort-objects` matches, `// @perfectionist-sort-objects now` does not.
   */
  lemma LineCommentMatchesExactly(e: RegexEngine, comment: Comment)
    requires AnchoredLiteralsAreExact(e) && comment.kind == Line
    ensures MatchCommand(e, Command, comment) == Success(Trim(comment.value) == Command)
  {
    assert IsRegexLiteral(Command);
    AnchoredLiteral(e, Command, Trim(comment.value));
  }

  datatype ObjectKind = ObjectExpression | ObjectPattern

  /** An object literal or pattern: its property count and its source text. */
  datatype ObjectNode = ObjectNode(kind: ObjectKind, propertyCount: nat, text: string)

  /** Any other expression or binding pattern. */
  datatype Node = ObjectNodeOf(obj: ObjectNode) | OtherNode

  /** The first declarator of a `VariableDeclaration`. */
  datatype Declarator = Declarator(init: Option<Node>, id: Node)

  /**
   * What the command context offers: the object node below the comment, the first
   * declarator of the variable declaration below it, and the comment itself.
   */
  datatype CommandContext = CommandContext(
    objectBelow: Option<ObjectNode>,
    declarationBelow: Option<Declarator>,
    comment: Comment)

  /** The result of `linter.verifyAndFix`. */
  datatype FixReport = FixReport(fixed: bool, output: string)

  datatype Outcome =
    | NoReport
    | ReportError(message: string)
    | Report(node: ObjectNode, loc: SourceLocation, message: string, replacement: string)

  /**
   * The object to sort: the object below the comment, else the declarator's initialiser
   * when it is an object expression, else its binding pattern when that is an object pattern.
   */
  function ObjectToSort(ctx: CommandContext): Option<ObjectNode> {
    if ctx.objectBelow.Some? then ctx.objectBelow
    else match ctx.declarationBelow
      case None => None
      case Some(d) =>
        if d.init.Some? && d.init.value.ObjectNodeOf? && d.init.value.obj.kind == ObjectExpression then Some(d.init.value.obj)
        else if d.id.ObjectNodeOf? && d.id.obj.kind == ObjectPattern then Some(d.id.obj)
        else None
  }

  /** `String.prototype.slice(n)`. */
  function Slice(s: string, n: nat): (r: string)
    ensures n <= |s| ==> s == s[..n] + r
    ensures n > |s| ==> r == []
  {
    if n <= |s| then s[n..] else []
  }

  /**
   * The command's `action`: finds the object step by step, skips objects with at most
   * one property, runs the linter on the object behind a temporary declaration, and
   * reports only a fix that changed something.
   */
  method Action(linter: string -> FixReport, ctx: CommandContext) returns (outcome: Outcome)
    ensures outcome.ReportError? <==> ObjectToSort(ctx).None? && ctx.declarationBelow.Some?
    ensures outcome.ReportError? ==> outcome.message == NotFoundMessage
    ensures outcome.Report? <==>
      (ObjectToSort(ctx).Some? && ObjectToSort(ctx).value.propertyCount > 1
       && linter(TemporaryVariablePrefix + ObjectToSort(ctx).value.text).fixed
       && linter(TemporaryVariablePrefix + ObjectToSort(ctx).value.text).output != [])
    ensures outcome.Report? ==>
      var report := linter(TemporaryVariablePrefix + outcome.node.text);
      && Some(outcome.node) == ObjectToSort(ctx)
      && outcome.loc == GetCommandLoc(Command, ctx.comment)
      && outcome.message == UnsortedMessage
      && (|report.output| >= |TemporaryVariablePrefix| ==>
            report.output == report.output[..|TemporaryVariablePrefix|] + outcome.replacement)
      && (|report.output| < |TemporaryVariablePrefix| ==> outcome.replacement == [])
  {
    var node := ctx.objectBelow;
    if node.None? {
      if ctx.declarationBelow.None? {
        return NoReport;
      }
      var declarator := ctx.declarationBelow.value;
      if declarator.init.Some? && declarator.init.value.ObjectNodeOf? && declarator.init.value.obj.kind == ObjectExpression {
        node := Some(declarator.init.value.obj);
      } else if declarator.id.ObjectNodeOf? && declarator.id.obj.kind == ObjectPattern {
        node := Some(declarator.id.obj);
      }
    }
    if node.None? {
      return ReportError(NotFoundMessage);
    }
    if node.value.propertyCount <= 1 {
      return NoReport;
    }
    var fixReport := linter(TemporaryVariablePrefix + node.value.text);
    if fixReport.fixed && fixReport.output != [] {
      var sorted := Slice(fixReport.output, |TemporaryVariablePrefix|);
      outcome := Report(node.value, GetCommandLoc(Command, ctx.comment), UnsortedMessage, sorted);
    } else {
      outcome := NoReport;
    }
  }
}
