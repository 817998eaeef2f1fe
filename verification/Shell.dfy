/** Parsed shell commands as the policy's visitor sees them, and the words whose value does not depend on variables. */
module Shell {
  import opened Types

  /** A word is its text, or is put together from parts. */
  datatype Word =
    | Bare(value: string)
    | Composed(value: string, parts: seq<Part>)

  datatype Part =
    | Plain(value: string)
    | Quoted(parts: seq<Part>)
    | Variable(name: string, text: string)
    | Parameter(name: string, operated: bool, operand: Option<Word>)
    | Substitution(text: string, command: bool, script: Option<Script>)
    | Calculated(text: string, expression: Option<Arithmetic>)
    | Pattern(text: string)

  /** Binary, unary, ternary and grouped expressions are all visited operand by operand. */
  datatype Arithmetic =
    | Operation(operands: seq<Arithmetic>)
    | Expanded(script: Option<Script>)
    | Term(parts: seq<Part>)

  datatype Test =
    | Comparison(words: seq<Word>)
    | Connective(tests: seq<Test>)

  datatype Redirect = Redirect(operator: string, target: Option<Word>, body: Option<Word>, quoted: bool, content: Option<string>)

  /** `simple` means neither appending nor assigning an array. */
  datatype Assignment = Assignment(name: Option<string>, value: Option<Word>, simple: bool)

  datatype Statement = Statement(command: ShellNode, background: bool, redirects: seq<Redirect>)

  datatype Script = Script(failed: bool, commands: seq<Statement>)

  datatype CaseItem = CaseItem(patterns: seq<Word>, body: seq<Statement>)

  datatype ShellNode =
    | Nested(statement: Statement)
    | Command(head: Option<Word>, prefix: seq<Assignment>, suffix: seq<Word>, redirects: seq<Redirect>)
    | Joined(commands: seq<ShellNode>, operators: seq<string>)
    | Group(body: seq<Statement>)
    | Subshell(body: seq<Statement>)
    | Conditional(clause: seq<Statement>, consequent: seq<Statement>, alternative: Option<ShellNode>)
    | Loop(variable: Word, wordlist: seq<Word>, body: seq<Statement>)
    | While(clause: seq<Statement>, body: seq<Statement>)
    | Definition(name: Word, definition: ShellNode)
    | Case(word: Word, items: seq<CaseItem>)
    | Coprocess(process: ShellNode, redirects: seq<Redirect>)
    | TestCommand(test: Test)
    | ArithmeticCommand(expression: Option<Arithmetic>)
    | ArithmeticLoop(heads: seq<Arithmetic>, body: seq<Statement>)

  // ---------------------------------------------------------------- static words

  predicate PartIsStatic(part: Part) {
    match part
    case Plain(_) => true
    case Quoted(parts) => forall i :: 0 <= i < |parts| ==> PartIsStatic(parts[i])
    case _ => false
  }

  predicate PartsAreStatic(parts: seq<Part>) {
    forall i :: 0 <= i < |parts| ==> PartIsStatic(parts[i])
  }

  /** wordIsStatic */
  predicate WordIsStatic(word: Word) {
    word.Composed? ==> PartsAreStatic(word.parts)
  }

  /** The text of static parts, one after another. */
  function PartsText(parts: seq<Part>): string {
    if parts == [] then ""
    else PartsText(parts[..|parts| - 1]) + PartText(parts[|parts| - 1])
  }

  function PartText(part: Part): string {
    match part
    case Plain(value) => value
    case Quoted(parts) => PartsText(parts)
    case _ => ""
  }

  /** What a static word evaluates to, whatever the environment. */
  function StaticText(word: Word): string {
    if word.Bare? then word.value else PartsText(word.parts)
  }

  // ---------------------------------------------------------------- output that is known beforehand

  function SoleCommandExpansion(word: Word): Option<Script> {
    if word.Bare? || |word.parts| != 1 then None
    else
      match word.parts[0]
      case Substitution(_, true, script) => script
      case Quoted(parts) =>
        if |parts| == 1 && parts[0].Substitution? && parts[0].command then parts[0].script else None
      case _ => None
  }

  function AfterLast(s: string, c: char): string {
    if s == "" || s[|s| - 1] == c then "" else AfterLast(s[..|s| - 1], c) + [s[|s| - 1]]
  }

  function WithoutFinalNewlines(s: string): string {
    if s != "" && s[|s| - 1] == '\n' then WithoutFinalNewlines(s[..|s| - 1]) else s
  }

  /** `printf %s word` and `cat` of a quoted here-document. */
  function StaticCommandOutput(n: ShellNode): Option<string>
    requires n.Command?
  {
    if n.head.None? || n.prefix != [] || !WordIsStatic(n.head.value)
       || (exists i :: 0 <= i < |n.suffix| && !WordIsStatic(n.suffix[i])) then None
    else
      var head := AfterLast(n.head.value.value, '/');
      if head == "printf" && |n.suffix| == 2 && n.suffix[0].value in {"%s", "%s\\n"} then Some(n.suffix[1].value)
      else if head == "cat" && n.suffix == [] && |n.redirects| == 1 && n.redirects[0].operator in {"<<", "<<-"} && n.redirects[0].quoted
      then Some(WithoutFinalNewlines(if n.redirects[0].content.Some? then n.redirects[0].content.value else ""))
      else None
  }

  function StaticGeneratedValue(word: Word): Option<string> {
    var script := SoleCommandExpansion(word);
    if script.None? || script.value.failed || |script.value.commands| != 1 then None
    else
      var statement := script.value.commands[0];
      if statement.background || statement.redirects != [] || !statement.command.Command? then None
      else StaticCommandOutput(statement.command)
  }

  lemma StaticIsNotGenerated(word: Word)
    requires WordIsStatic(word)
    ensures StaticGeneratedValue(word).None?
  {
    if word.Composed? && |word.parts| == 1 {
      assert PartIsStatic(word.parts[0]);
    }
  }

  // ---------------------------------------------------------------- words that are never known

  predicate PartIsDynamic(part: Part) {
    match part
    case Substitution(_, _, _) => true
    case Calculated(_, _) => true
    case Pattern(_) => true
    case Parameter(_, operated, _) => operated
    case Quoted(parts) => exists i :: 0 <= i < |parts| && PartIsDynamic(parts[i])
    case _ => false
  }

  predicate PartsAreDynamic(parts: seq<Part>) {
    exists i :: 0 <= i < |parts| && PartIsDynamic(parts[i])
  }

  /** A word with a part that no environment gives a value. */
  predicate WordIsDynamic(word: Word) {
    word.Composed? && PartsAreDynamic(word.parts) && StaticGeneratedValue(word).None?
  }

  // ---------------------------------------------------------------- names of the functions defined in it

  /**
   The names of all functions defined anywhere in a node.  A name that is never known defines
   nothing; None stands for a name that depends on variables.
   */
  function NamesInNode(n: ShellNode): set<Option<string>> {
    match n
    case Nested(statement) => NamesInStatement(statement)
    case Command(head, prefix, suffix, redirects) =>
      NamesInOption(head) + NamesInAssignments(prefix) + NamesInWords(suffix) + NamesInRedirects(redirects)
    case Joined(commands, _) => set i, name | 0 <= i < |commands| && name in NamesInNode(commands[i]) :: name
    case Group(body) => NamesInStatements(body)
    case Subshell(body) => NamesInStatements(body)
    case Conditional(clause, consequent, alternative) =>
      NamesInStatements(clause) + NamesInStatements(consequent) + if alternative.Some? then NamesInNode(alternative.value) else {}
    case Loop(variable, wordlist, body) => NamesInWord(variable) + NamesInWords(wordlist) + NamesInStatements(body)
    case While(clause, body) => NamesInStatements(clause) + NamesInStatements(body)
    case Definition(name, definition) =>
      DefinedName(name) + NamesInWord(name) + NamesInNode(definition)
    case Case(word, items) =>
      NamesInWord(word) + set i, name | 0 <= i < |items| && name in NamesInWords(items[i].patterns) + NamesInStatements(items[i].body) :: name
    case Coprocess(process, redirects) => NamesInNode(process) + NamesInRedirects(redirects)
    case TestCommand(test) => NamesInTest(test)
    case ArithmeticCommand(expression) => if expression.Some? then NamesInArithmetic(expression.value) else {}
    case ArithmeticLoop(heads, body) =>
      NamesInStatements(body) + set i, name | 0 <= i < |heads| && name in NamesInArithmetic(heads[i]) :: name
  }

  function DefinedName(name: Word): set<Option<string>> {
    if WordIsStatic(name) then {Some(StaticText(name))} else if WordIsDynamic(name) then {} else {None}
  }

  function NamesInStatement(s: Statement): set<Option<string>> {
    NamesInNode(s.command) + NamesInRedirects(s.redirects)
  }

  function NamesInStatements(ss: seq<Statement>): set<Option<string>> {
    set i, name | 0 <= i < |ss| && name in NamesInStatement(ss[i]) :: name
  }

  function NamesInScript(script: Script): set<Option<string>> {
    NamesInStatements(script.commands)
  }

  function NamesInRedirects(rs: seq<Redirect>): set<Option<string>> {
    set i, name | 0 <= i < |rs| && name in NamesInOption(rs[i].body) + NamesInOption(rs[i].target) :: name
  }

  function NamesInAssignments(assignments: seq<Assignment>): set<Option<string>> {
    set i, name | 0 <= i < |assignments| && name in NamesInAssignment(assignments[i]) :: name
  }

  function NamesInAssignment(a: Assignment): set<Option<string>> {
    NamesInOption(a.value)
  }

  function NamesInOption(word: Option<Word>): set<Option<string>> {
    if word.Some? then NamesInWord(word.value) else {}
  }

  function NamesInWords(words: seq<Word>): set<Option<string>> {
    set i, name | 0 <= i < |words| && name in NamesInWord(words[i]) :: name
  }

  function NamesInWord(word: Word): set<Option<string>> {
    if word.Composed? then NamesInParts(word.parts) else {}
  }

  function NamesInParts(parts: seq<Part>): set<Option<string>> {
    set i, name | 0 <= i < |parts| && name in NamesInPart(parts[i]) :: name
  }

  function NamesInPart(part: Part): set<Option<string>> {
    match part
    case Quoted(parts) => NamesInParts(parts)
    case Parameter(_, _, operand) => NamesInOption(operand)
    case Substitution(_, _, script) => if script.Some? then NamesInScript(script.value) else {}
    case Calculated(_, expression) => if expression.Some? then NamesInArithmetic(expression.value) else {}
    case _ => {}
  }

  function NamesInArithmetic(e: Arithmetic): set<Option<string>> {
    match e
    case Operation(operands) => set i, name | 0 <= i < |operands| && name in NamesInArithmetic(operands[i]) :: name
    case Expanded(script) => if script.Some? then NamesInScript(script.value) else {}
    case Term(parts) => NamesInParts(parts)
  }

  function NamesInTest(test: Test): set<Option<string>> {
    match test
    case Comparison(words) => NamesInWords(words)
    case Connective(tests) => set i, name | 0 <= i < |tests| && name in NamesInTest(tests[i]) :: name
  }

  /** All function definitions have static names, and the names are among those given. */
  predicate Named(names: set<Option<string>>, universe: set<string>) {
    forall name :: name in names ==> name.Some? && name.value in universe
  }

  lemma KnownName(name: Word, universe: set<string>)
    requires Named(DefinedName(name), universe)
    ensures (WordIsStatic(name) && StaticText(name) in universe) || WordIsDynamic(name)
  {
    var names := DefinedName(name);
    assert WordIsStatic(name) ==> Some(StaticText(name)) in names;
    assert !WordIsStatic(name) ==> WordIsDynamic(name) || names == {None};
  }

  // ---------------------------------------------------------------- simple commands

  /** A command as it is written: each of its words, where the text does not depend on variables. */
  type Shape = seq<Option<string>>

  function WordShape(word: Word): Option<string> {
    if WordIsStatic(word) then Some(StaticText(word)) else None
  }

  function ShapeOf(head: Word, suffix: seq<Word>): (r: Shape)
    ensures |r| == |suffix| + 1
  {
    [WordShape(head)] + seq(|suffix|, i requires 0 <= i < |suffix| => WordShape(suffix[i]))
  }

  /**
   The simple commands anywhere in a node, those in substitutions, redirects, tests and loops
   included; the bodies of function definitions and commands named by a variable are not.
   */
  function CommandsInNode(n: ShellNode): set<Shape> {
    match n
    case Nested(statement) => CommandsInStatement(statement)
    case Command(head, prefix, suffix, redirects) =>
      (if head.Some? && (WordIsStatic(head.value) || WordIsDynamic(head.value)) then {ShapeOf(head.value, suffix)} else {})
      + CommandsInOption(head) + CommandsInAssignments(prefix) + CommandsInWords(suffix) + CommandsInRedirects(redirects)
    case Joined(commands, _) => set i, c | 0 <= i < |commands| && c in CommandsInNode(commands[i]) :: c
    case Group(body) => CommandsInStatements(body)
    case Subshell(body) => CommandsInStatements(body)
    case Conditional(clause, consequent, alternative) =>
      CommandsInStatements(clause) + CommandsInStatements(consequent) + if alternative.Some? then CommandsInNode(alternative.value) else {}
    case Loop(variable, wordlist, body) => CommandsInWord(variable) + CommandsInWords(wordlist) + CommandsInStatements(body)
    case While(clause, body) => CommandsInStatements(clause) + CommandsInStatements(body)
    case Definition(name, _) => CommandsInWord(name)
    case Case(word, items) =>
      CommandsInWord(word) + set i, c | 0 <= i < |items| && c in CommandsInWords(items[i].patterns) + CommandsInStatements(items[i].body) :: c
    case Coprocess(process, redirects) => CommandsInNode(process) + CommandsInRedirects(redirects)
    case TestCommand(test) => CommandsInTest(test)
    case ArithmeticCommand(expression) => if expression.Some? then CommandsInArithmetic(expression.value) else {}
    case ArithmeticLoop(heads, body) =>
      CommandsInStatements(body) + set i, c | 0 <= i < |heads| && c in CommandsInArithmetic(heads[i]) :: c
  }

  function CommandsInStatement(s: Statement): set<Shape> {
    CommandsInNode(s.command) + CommandsInRedirects(s.redirects)
  }

  function CommandsInStatements(ss: seq<Statement>): set<Shape> {
    set i, c | 0 <= i < |ss| && c in CommandsInStatement(ss[i]) :: c
  }

  function CommandsInScript(script: Script): set<Shape> {
    CommandsInStatements(script.commands)
  }

  function CommandsInRedirects(rs: seq<Redirect>): set<Shape> {
    set i, c | 0 <= i < |rs| && c in CommandsInOption(rs[i].body) + CommandsInOption(rs[i].target) :: c
  }

  function CommandsInAssignments(assignments: seq<Assignment>): set<Shape> {
    set i, c | 0 <= i < |assignments| && c in CommandsInAssignment(assignments[i]) :: c
  }

  function CommandsInAssignment(a: Assignment): set<Shape> {
    CommandsInOption(a.value)
  }

  function CommandsInOption(word: Option<Word>): set<Shape> {
    if word.Some? then CommandsInWord(word.value) else {}
  }

  function CommandsInWords(words: seq<Word>): set<Shape> {
    set i, c | 0 <= i < |words| && c in CommandsInWord(words[i]) :: c
  }

  function CommandsInWord(word: Word): set<Shape> {
    if word.Composed? then CommandsInParts(word.parts) else {}
  }

  function CommandsInParts(parts: seq<Part>): set<Shape> {
    set i, c | 0 <= i < |parts| && c in CommandsInPart(parts[i]) :: c
  }

  function CommandsInPart(part: Part): set<Shape> {
    match part
    case Quoted(parts) => CommandsInParts(parts)
    case Parameter(_, _, operand) => CommandsInOption(operand)
    case Substitution(_, _, script) => if script.Some? then CommandsInScript(script.value) else {}
    case Calculated(_, expression) => if expression.Some? then CommandsInArithmetic(expression.value) else {}
    case _ => {}
  }

  function CommandsInArithmetic(e: Arithmetic): set<Shape> {
    match e
    case Operation(operands) => set i, c | 0 <= i < |operands| && c in CommandsInArithmetic(operands[i]) :: c
    case Expanded(script) => if script.Some? then CommandsInScript(script.value) else {}
    case Term(parts) => CommandsInParts(parts)
  }

  function CommandsInTest(test: Test): set<Shape> {
    match test
    case Comparison(words) => CommandsInWords(words)
    case Connective(tests) => set i, c | 0 <= i < |tests| && c in CommandsInTest(tests[i]) :: c
  }
}
