/**
 The visitor that lists the simple commands of a parsed script (ast-visitor.ts, ast-values.ts).
 It follows calls of functions the script defines, and ends because a call makes one more of the
 script's function names active, and everything else goes on to a smaller piece of the script.
 */
module Visitor {
  import opened Types
  import opened Shell

  datatype CommandWord = Literal(value: string) | Dynamic(value: string, source: string)

  /** An environment is copied or handed on, so it is a value here. */
  type Environment = map<string, CommandWord>

  datatype Segment = Segment(words: seq<CommandWord>, redirects: seq<(string, CommandWord)>, joiner: Option<string>)

  const MAX_FOR_UNROLL: nat := 32

  predicate IsLetter(c: char) {
    'A' <= c <= 'Z' || 'a' <= c <= 'z' || c == '_'
  }

  predicate IsDigit(c: char) {
    '0' <= c <= '9'
  }

  predicate IsVariableName(s: string) {
    s != "" && IsLetter(s[0]) && forall i :: 0 <= i < |s| ==> IsLetter(s[i]) || IsDigit(s[i])
  }

  predicate IsPositional(s: string) {
    s != "" && forall i :: 0 <= i < |s| ==> IsDigit(s[i])
  }

  function Decimal(n: nat): (s: string)
    ensures IsPositional(s)
  {
    var digit := [('0' as int + n % 10) as char];
    if n < 10 then digit else Decimal(n / 10) + digit
  }

  // ---------------------------------------------------------------- assignments before a command

  function PrefixNames(prefix: seq<Assignment>): set<string> {
    set i | 0 <= i < |prefix| && prefix[i].name.Some? :: prefix[i].name.value
  }

  function Assigned(prefix: seq<Assignment>, values: seq<CommandWord>, env: Environment): (r: Environment)
    requires |values| == |prefix|
    ensures env.Keys <= r.Keys <= env.Keys + PrefixNames(prefix)
  {
    if prefix == [] then env
    else
      var n := |prefix| - 1;
      var before := Assigned(prefix[..n], values[..n], env);
      if prefix[n].name.Some? && prefix[n].simple then before[prefix[n].name.value := values[n]] else before
  }

  method ApplyAssignments(prefix: seq<Assignment>, values: seq<CommandWord>, env: Environment) returns (r: Environment)
    requires |values| == |prefix|
    ensures r == Assigned(prefix, values, env)
  {
    r := env;
    var i := 0;
    while i < |prefix|
      invariant i <= |prefix| && r == Assigned(prefix[..i], values[..i], env)
    {
      assert prefix[..i + 1][..i] == prefix[..i] && values[..i + 1][..i] == values[..i];
      if prefix[i].name.Some? && prefix[i].simple {
        r := r[prefix[i].name.value := values[i]];
      }
      i := i + 1;
    }
    assert prefix[..|prefix|] == prefix && values[..|values|] == values;
  }

  /** The variables of a call that its caller does not get back. */
  predicate Callers(key: string, prefix: seq<Assignment>) {
    IsPositional(key) || key in PrefixNames(prefix)
  }

  /** The caller's positional and prefix-assigned variables are as before, and no variable is gone. */
  predicate CallerKept(before: Environment, after: Environment, prefix: seq<Assignment>) {
    && before.Keys <= after.Keys
    && forall key :: Callers(key, prefix) && key in after ==> key in before && after[key] == before[key]
  }

  // ---------------------------------------------------------------- the visit of basic scripts, as a function

  /** Basic scripts are made of assignments, definitions and calls without arguments. */
  predicate BasicWord(word: Word) {
    word.Composed? ==> forall i :: 0 <= i < |word.parts| ==> BasicPart(word.parts[i])
  }

  predicate BasicPart(part: Part) {
    part.Plain? || part.Variable?
  }

  predicate BasicPrefix(prefix: seq<Assignment>) {
    forall i :: 0 <= i < |prefix| && prefix[i].value.Some? ==> BasicWord(prefix[i].value.value)
  }

  predicate BasicNode(n: ShellNode) {
    match n
    case Group(body) => forall i :: 0 <= i < |body| ==> BasicStatement(body[i])
    case Definition(name, definition) => BasicWord(name) && BasicNode(definition)
    case Command(head, prefix, suffix, redirects) =>
      suffix == [] && redirects == [] && if head.Some? then prefix == [] && BasicWord(head.value) else BasicPrefix(prefix)
    case _ => false
  }

  predicate BasicStatement(s: Statement) {
    s.redirects == [] && BasicNode(s.command)
  }

  predicate BasicFunctions(functions: map<string, ShellNode>) {
    forall f :: f in functions ==> BasicNode(functions[f])
  }

  function PartValue(part: Part, env: Environment): CommandWord
    requires BasicPart(part)
  {
    match part
    case Plain(value) => Literal(value)
    case Variable(name, text) => if name in env then env[name] else Dynamic(text, "parameter")
  }

  /** The text of the known parts, and the first unknown one. */
  function Gathered(parts: seq<Part>, env: Environment): (string, Option<CommandWord>)
    requires forall i :: 0 <= i < |parts| ==> BasicPart(parts[i])
  {
    if parts == [] then ("", None)
    else
      var (text, unknown) := Gathered(parts[..|parts| - 1], env);
      var last := PartValue(parts[|parts| - 1], env);
      if last.Literal? then (text + last.value, unknown) else (text, if unknown.None? then Some(last) else unknown)
  }

  function PartsValue(parts: seq<Part>, env: Environment): CommandWord
    requires forall i :: 0 <= i < |parts| ==> BasicPart(parts[i])
  {
    var (text, unknown) := Gathered(parts, env);
    if unknown.None? then Literal(text)
    else Dynamic(if text != "" then text else unknown.value.value, if unknown.value.Dynamic? then unknown.value.source else "")
  }

  function WordValue(word: Word, env: Environment): CommandWord
    requires BasicWord(word)
  {
    if word.Bare? then Literal(word.value) else PartsValue(word.parts, env)
  }

  function PrefixValue(a: Assignment, env: Environment): CommandWord
    requires a.value.Some? ==> BasicWord(a.value.value)
  {
    if a.value.None? then Literal("") else WordValue(a.value.value, env)
  }

  function PrefixValues(prefix: seq<Assignment>, env: Environment): (vs: seq<CommandWord>)
    requires BasicPrefix(prefix)
    ensures |vs| == |prefix| && forall i :: 0 <= i < |prefix| ==> vs[i] == PrefixValue(prefix[i], env)
  {
    if prefix == [] then []
    else
      var n := |prefix| - 1;
      PrefixValues(prefix[..n], env) + [PrefixValue(prefix[n], env)]
  }

  /** What a visit knows. */
  datatype Known = Known(functions: map<string, ShellNode>, env: Environment)

  function WithoutPositional(env: Environment): Environment {
    map key | key in env && !IsPositional(key) :: env[key]
  }

  /** The visit of a basic script, given up once more than `calls` calls are nested. */
  function Visited(n: ShellNode, k: Known, active: set<string>, calls: nat): (r: Option<Known>)
    requires BasicNode(n) && BasicFunctions(k.functions)
    ensures r.Some? ==> BasicFunctions(r.value.functions)
    decreases calls, n
  {
    match n
    case Group(body) => VisitedAll(body, k, active, calls)
    case Definition(name, definition) =>
      var value := WordValue(name, k.env);
      Some(if value.Literal? && IsVariableName(value.value) then k.(functions := k.functions[value.value := definition]) else k)
    case Command(head, prefix, _, _) =>
      if head.None? then Some(k.(env := Assigned(prefix, PrefixValues(prefix, k.env), k.env)))
      else
        var name := WordValue(head.value, k.env);
        if name.Dynamic? || name.value !in k.functions || name.value in active then Some(k)
        else if calls == 0 then None
        else
          var inner := Visited(k.functions[name.value], k.(env := WithoutPositional(k.env)), active + {name.value}, calls - 1);
          if inner.None? then None else Some(inner.value.(env := k.env + WithoutPositional(inner.value.env)))
  }

  function VisitedAll(body: seq<Statement>, k: Known, active: set<string>, calls: nat): (r: Option<Known>)
    requires (forall i :: 0 <= i < |body| ==> BasicStatement(body[i])) && BasicFunctions(k.functions)
    ensures r.Some? ==> BasicFunctions(r.value.functions)
    decreases calls, body
  {
    if body == [] then Some(k)
    else
      assert BasicStatement(body[0]);
      var first := Visited(body[0].command, k, active, calls);
      if first.None? then None else VisitedAll(body[1..], first.value, active, calls)
  }

  // ---------------------------------------------------------------- what is listed

  /** The words of a segment are those of the command as written, as far as they do not depend on variables. */
  predicate Matches(words: seq<CommandWord>, shape: Shape) {
    |words| == |shape| && forall i :: 0 <= i < |shape| && shape[i].Some? ==> words[i] == Literal(shape[i].value)
  }

  /** Every one of the commands that does not bear the name of a function is in the list. */
  ghost predicate ListedIn(segments: seq<Segment>, universe: set<string>, commands: set<Shape>) {
    forall c: Shape :: c in commands && c != [] && (c[0].Some? ==> c[0].value !in universe) ==>
      exists i :: 0 <= i < |segments| && Matches(segments[i].words, c)
  }

  /** Later segments come after those already there, which keep their words. */
  ghost predicate Grown(before: seq<Segment>, after: seq<Segment>) {
    |before| <= |after| && forall i :: 0 <= i < |before| ==> after[i].words == before[i].words
  }

  lemma ListedGrown(before: seq<Segment>, after: seq<Segment>, universe: set<string>, commands: set<Shape>)
    requires ListedIn(before, universe, commands) && Grown(before, after)
    ensures ListedIn(after, universe, commands)
  {
    forall c: Shape | c in commands && c != [] && (c[0].Some? ==> c[0].value !in universe)
      ensures exists i :: 0 <= i < |after| && Matches(after[i].words, c)
    {
      var i :| 0 <= i < |before| && Matches(before[i].words, c);
      assert after[i].words == before[i].words;
    }
  }

  predicate Nameable(n: ShellNode) {
    n.Command? && n.head.Some? && BasicWord(n.head.value)
  }

  /** A command of this name is in the list, or the name is a function's. */
  ghost predicate RunIn(segments: seq<Segment>, universe: set<string>, name: CommandWord) {
    || (name.Literal? && name.value in universe)
    || exists i :: 0 <= i < |segments| && segments[i].words != [] && segments[i].words[0] == name
  }

  lemma RunGrown(before: seq<Segment>, after: seq<Segment>, universe: set<string>, name: CommandWord)
    requires RunIn(before, universe, name) && Grown(before, after)
    ensures RunIn(after, universe, name)
  {
    if !(name.Literal? && name.value in universe) {
      var i :| 0 <= i < |before| && before[i].words != [] && before[i].words[0] == name;
      assert after[i].words == before[i].words;
    }
  }

  /** What was listed before, and what is now. */
  lemma ListedBoth(before: seq<Segment>, after: seq<Segment>, universe: set<string>, a: set<Shape>, b: set<Shape>)
    requires ListedIn(before, universe, a) && Grown(before, after) && ListedIn(after, universe, b)
    ensures ListedIn(after, universe, a + b)
  {
    ListedGrown(before, after, universe, a);
  }

  /** The commands inside a command, and the command itself. */
  function Within(n: ShellNode): set<Shape>
    requires n.Command?
  {
    CommandsInAssignments(n.prefix) + CommandsInOption(n.head) + CommandsInWords(n.suffix) + CommandsInRedirects(n.redirects)
  }

  function Own(n: ShellNode): set<Shape>
    requires n.Command?
    ensures CommandsInNode(n) == Within(n) + Own(n)
  {
    if n.head.Some? && (WordIsStatic(n.head.value) || WordIsDynamic(n.head.value)) then {ShapeOf(n.head.value, n.suffix)} else {}
  }

  lemma OneListed(before: seq<Segment>, after: seq<Segment>, universe: set<string>, n: ShellNode, head: CommandWord,
                  words: seq<CommandWord>, redirects: seq<(string, CommandWord)>)
    requires n.Command? && n.head.Some? && ListedIn(before, universe, Within(n)) && |words| == |n.suffix|
    requires after == before + [Segment([head] + words, redirects, None)]
    requires WordIsStatic(n.head.value) ==> head == Literal(StaticText(n.head.value))
    requires forall i :: 0 <= i < |words| && WordIsStatic(n.suffix[i]) ==> words[i] == Literal(StaticText(n.suffix[i]))
    ensures Grown(before, after) && ListedIn(after, universe, CommandsInNode(n))
  {
    hide CommandsInNode, Within;
    assert Matches(after[|before|].words, ShapeOf(n.head.value, n.suffix));
    ListedBoth(before, after, universe, Within(n), Own(n));
  }

  /** A call of a function is followed, not listed. */
  lemma FunctionsNeedNoListing(n: ShellNode, universe: set<string>, segments: seq<Segment>, name: string)
    requires n.Command? && n.head.Some? && name in universe && !WordIsDynamic(n.head.value)
    requires WordIsStatic(n.head.value) ==> StaticText(n.head.value) == name
    ensures ListedIn(segments, universe, Own(n))
  {
  }

  lemma FunctionsRun(segments: seq<Segment>, universe: set<string>, name: string)
    ensures name in universe ==> RunIn(segments, universe, Literal(name))
  {
  }

  lemma OneRuns(before: seq<Segment>, universe: set<string>, head: CommandWord, words: seq<CommandWord>, redirects: seq<(string, CommandWord)>)
    ensures RunIn(before + [Segment([head] + words, redirects, None)], universe, head)
  {
    var after := before + [Segment([head] + words, redirects, None)];
    assert after[|before|].words[0] == head;
  }

  lemma ConditionalNamed(n: ShellNode, universe: set<string>)
    requires n.Conditional? && Named(NamesInNode(n), universe)
    ensures Named(NamesInStatements(n.clause), universe) && Named(NamesInStatements(n.consequent), universe)
    ensures n.alternative.Some? ==> Named(NamesInNode(n.alternative.value), universe)
  {
  }

  lemma ConditionalCommands(n: ShellNode)
    requires n.Conditional?
    ensures CommandsInNode(n) == CommandsInStatements(n.clause) + CommandsInStatements(n.consequent)
                                 + if n.alternative.Some? then CommandsInNode(n.alternative.value) else {}
    ensures n.alternative.None? ==> CommandsInNode(n) == CommandsInStatements(n.clause) + CommandsInStatements(n.consequent)
  {
  }

  lemma RedirectsNamed(n: ShellNode, universe: set<string>)
    requires n.Command? && Named(NamesInNode(n), universe)
    ensures Named(NamesInRedirects(n.redirects), universe)
  {
  }

  lemma SegmentsStay(segments: seq<Segment>)
    ensures Grown(segments, segments)
  {
  }

  lemma PartsListed(segments: seq<Segment>, universe: set<string>, parts: seq<Part>)
    requires forall j :: 0 <= j < |parts| ==> ListedIn(segments, universe, CommandsInPart(parts[j]))
    ensures ListedIn(segments, universe, CommandsInParts(parts))
  {
  }

  lemma StatementsListed(segments: seq<Segment>, universe: set<string>, statements: seq<Statement>)
    requires forall j :: 0 <= j < |statements| ==> ListedIn(segments, universe, CommandsInStatement(statements[j]))
    ensures ListedIn(segments, universe, CommandsInStatements(statements))
  {
  }

  lemma CaseListed(segments: seq<Segment>, universe: set<string>, n: ShellNode)
    requires n.Case? && ListedIn(segments, universe, CommandsInWord(n.word))
    requires forall j :: 0 <= j < |n.items| ==>
               ListedIn(segments, universe, CommandsInWords(n.items[j].patterns) + CommandsInStatements(n.items[j].body))
    ensures ListedIn(segments, universe, CommandsInNode(n))
  {
  }

  lemma GrownTwice(a: seq<Segment>, b: seq<Segment>, c: seq<Segment>)
    requires Grown(a, b) && Grown(b, c)
    ensures Grown(a, c)
  {
  }

  lemma NothingListed(segments: seq<Segment>, universe: set<string>)
    ensures ListedIn(segments, universe, {})
  {
  }

  // ---------------------------------------------------------------- the visitor

  class CommandVisitor {
    ghost const universe: set<string>
    var segments: seq<Segment>
    var decision: Option<string>
    var functions: map<string, ShellNode>
    var active: set<string>

    /** `universe` are the names of the functions the script may define; all of them are known in advance. */
    constructor (ghost universe: set<string>)
      ensures Valid() && this.universe == universe && segments == [] && decision == None && active == {}
    {
      this.universe := universe;
      segments, decision, functions, active := [], None, map[], {};
    }

    ghost predicate Valid()
      reads this
    {
      && active <= universe && functions.Keys <= universe
      && forall f :: f in functions ==> Named(NamesInNode(functions[f]), universe)
    }

    /** What every visit keeps: calls in progress, a refusal once given, functions and segments seen so far. */
    twostate predicate Kept()
      reads this
    {
      && Valid() && active == old(active) && old(functions).Keys <= functions.Keys
      && (old(decision).Some? ==> decision == old(decision)) && Grown(old(segments), segments)
    }

    ghost predicate Listed(commands: set<Shape>)
      reads this`segments
    {
      ListedIn(segments, universe, commands)
    }

    /** The command the node is, if its name is made of texts and variables, is there under the name it has in `env`. */
    ghost predicate Runs(n: ShellNode, env: Environment)
      reads this`segments
    {
      Nameable(n) ==> RunIn(segments, universe, WordValue(n.head.value, env))
    }

    /** The functions and the environment after a basic node are those of Visited. */
    twostate predicate Agrees(n: ShellNode, env: Environment, after: Environment)
      reads this
    {
      BasicNode(n) && BasicFunctions(old(functions)) ==>
        Visited(n, Known(old(functions), env), old(active), |universe - old(active)|) == Some(Known(functions, after))
    }

    method Fail(reason: string)
      requires Valid()
      modifies this`decision
      ensures Kept() && decision.Some?
    {
      if decision.None? {
        decision := Some(reason);
      }
    }

    // ---------------------------------------------------------------- words

    method Word(word: Word, env: Environment) returns (r: CommandWord)
      requires Valid() && Named(NamesInWord(word), universe)
      modifies this
      ensures Kept() && (WordIsStatic(word) ==> r == Literal(StaticText(word))) && (WordIsDynamic(word) ==> r.Dynamic?)
      ensures BasicWord(word) ==> r == WordValue(word, env) && functions == old(functions)
      ensures Listed(CommandsInWord(word))
      decreases universe - active, word
    {
      if WordIsStatic(word) {
        StaticIsNotGenerated(word);
      }
      if word.Bare? {
        return Literal(word.value);
      }
      r := Parts(word.parts, env);
      var generated := StaticGeneratedValue(word);
      if generated.Some? {
        r := Literal(generated.value);
      }
    }

    method Parts(parts: seq<Part>, env: Environment) returns (r: CommandWord)
      requires Valid() && Named(NamesInParts(parts), universe)
      modifies this
      ensures Kept() && (PartsAreStatic(parts) ==> r == Literal(PartsText(parts))) && (PartsAreDynamic(parts) ==> r.Dynamic?)
      ensures (forall i :: 0 <= i < |parts| ==> BasicPart(parts[i])) ==> r == PartsValue(parts, env) && functions == old(functions)
      ensures Listed(CommandsInParts(parts))
      decreases universe - active, parts
    {
      hide ListedIn;
      var value := "";
      var dynamic: Option<CommandWord> := None;
      var i := 0;
      while i < |parts|
        invariant i <= |parts| && Kept()
        invariant PartsAreStatic(parts[..i]) ==> dynamic == None && value == PartsText(parts[..i])
        invariant dynamic.Some? ==> dynamic.value.Dynamic?
        invariant PartsAreDynamic(parts[..i]) ==> dynamic.Some?
        invariant (forall j :: 0 <= j < |parts| ==> BasicPart(parts[j])) ==>
                    Gathered(parts[..i], env) == (value, dynamic) && functions == old(functions)
        invariant forall j :: 0 <= j < i ==> Listed(CommandsInPart(parts[j]))
      {
        assert parts[..i + 1][..i] == parts[..i];
        assert PartsAreStatic(parts[..i + 1]) ==> PartsAreStatic(parts[..i]) && PartIsStatic(parts[..i + 1][i]);
        ghost var before := segments;
        var next := Part(parts[i], env);
        forall j | 0 <= j < i ensures Listed(CommandsInPart(parts[j])) {
          ListedGrown(before, segments, universe, CommandsInPart(parts[j]));
        }
        if next.Literal? {
          value := value + next.value;
        } else if dynamic.None? {
          dynamic := Some(next);
        }
        i := i + 1;
      }
      assert parts[..|parts|] == parts;
      PartsListed(segments, universe, parts);
      r := if dynamic.None? then Literal(value)
           else Dynamic(if value != "" then value else dynamic.value.value, dynamic.value.source);
    }

    method Part(part: Part, env: Environment) returns (r: CommandWord)
      requires Valid() && Named(NamesInPart(part), universe)
      modifies this
      ensures Kept() && (PartIsStatic(part) ==> r == Literal(PartText(part))) && (PartIsDynamic(part) ==> r.Dynamic?)
      ensures BasicPart(part) ==> r == PartValue(part, env) && functions == old(functions)
      ensures Listed(CommandsInPart(part))
      decreases universe - active, part
    {
      match part
      case Plain(value) => r := Literal(value);
      case Quoted(parts) => r := Parts(parts, env);
      case Variable(name, text) => r := if name in env then env[name] else Dynamic(text, "parameter");
      case Parameter(name, operated, operand) =>
        if operand.Some? {
          assert NamesInPart(part) == NamesInOption(operand) == NamesInWord(operand.value);
          var ignored := Word(operand.value, env);
        }
        r := if operated then Dynamic(name, "expansion") else if name in env then env[name] else Dynamic(name, "parameter");
      case Substitution(text, _, script) =>
        if script.Some? {
          assert NamesInPart(part) == NamesInScript(script.value) == NamesInStatements(script.value.commands);
          var ignored := Statements(script.value.commands, env);
        }
        r := Dynamic(text, "substitution");
      case Calculated(text, expression) =>
        if expression.Some? {
          Arithmetic(expression.value, env);
        }
        r := Dynamic(text, "expansion");
      case Pattern(text) => r := Dynamic(text, "expansion");
    }

    method Arithmetic(e: Arithmetic, env: Environment)
      requires Valid() && Named(NamesInArithmetic(e), universe)
      modifies this
      ensures Kept()
      ensures Listed(CommandsInArithmetic(e))
      decreases universe - active, e
    {
      match e
      case Operation(operands) =>
        var i := 0;
        while i < |operands|
          invariant i <= |operands| && Kept()
          invariant forall j :: 0 <= j < i ==> Listed(CommandsInArithmetic(operands[j]))
        {
          ghost var before := segments;
          Arithmetic(operands[i], env);
          forall j | 0 <= j < i ensures Listed(CommandsInArithmetic(operands[j])) {
            ListedGrown(before, segments, universe, CommandsInArithmetic(operands[j]));
          }
          i := i + 1;
        }
      case Expanded(script) =>
        if script.Some? {
          assert NamesInArithmetic(e) == NamesInScript(script.value) == NamesInStatements(script.value.commands);
          var ignored := Statements(script.value.commands, env);
        }
      case Term(parts) =>
        var ignored := Parts(parts, env);
    }

    method TestExpression(test: Test, env: Environment)
      requires Valid() && Named(NamesInTest(test), universe)
      modifies this
      ensures Kept()
      ensures Listed(CommandsInTest(test))
      decreases universe - active, test
    {
      match test
      case Comparison(words) =>
        var ignored := Words(words, env);
      case Connective(tests) =>
        var i := 0;
        while i < |tests|
          invariant i <= |tests| && Kept()
          invariant forall j :: 0 <= j < i ==> Listed(CommandsInTest(tests[j]))
        {
          ghost var before := segments;
          TestExpression(tests[i], env);
          forall j | 0 <= j < i ensures Listed(CommandsInTest(tests[j])) {
            ListedGrown(before, segments, universe, CommandsInTest(tests[j]));
          }
          i := i + 1;
        }
    }

    method Words(words: seq<Word>, env: Environment) returns (rs: seq<CommandWord>)
      requires Valid() && Named(NamesInWords(words), universe)
      modifies this
      ensures Kept() && |rs| == |words| && (words == [] ==> functions == old(functions))
      ensures forall i :: 0 <= i < |words| && WordIsStatic(words[i]) ==> rs[i] == Literal(StaticText(words[i]))
      ensures Listed(CommandsInWords(words))
      decreases universe - active, words
    {
      rs := [];
      var i := 0;
      while i < |words|
        invariant i == |rs| <= |words| && Kept() && (i == 0 ==> functions == old(functions))
        invariant forall j :: 0 <= j < i && WordIsStatic(words[j]) ==> rs[j] == Literal(StaticText(words[j]))
        invariant forall j :: 0 <= j < i ==> Listed(CommandsInWord(words[j]))
      {
        ghost var before := segments;
        var r := Word(words[i], env);
        forall j | 0 <= j < i ensures Listed(CommandsInWord(words[j])) {
          ListedGrown(before, segments, universe, CommandsInWord(words[j]));
        }
        rs := rs + [r];
        i := i + 1;
      }
    }

    method AssignmentValues(prefix: seq<Assignment>, env: Environment) returns (rs: seq<CommandWord>)
      requires Valid() && Named(NamesInAssignments(prefix), universe)
      modifies this
      ensures Kept() && |rs| == |prefix|
      ensures BasicPrefix(prefix) ==> rs == PrefixValues(prefix, env) && functions == old(functions)
      ensures Listed(CommandsInAssignments(prefix))
      decreases universe - active, prefix
    {
      rs := [];
      var i := 0;
      while i < |prefix|
        invariant i == |rs| <= |prefix| && Kept()
        invariant BasicPrefix(prefix) ==> functions == old(functions) && forall j :: 0 <= j < i ==> rs[j] == PrefixValue(prefix[j], env)
        invariant forall j :: 0 <= j < i ==> Listed(CommandsInAssignment(prefix[j]))
      {
        assert forall name :: name in NamesInAssignment(prefix[i]) ==> name in NamesInAssignments(prefix);
        ghost var before := segments;
        var r := AssignmentValue(prefix[i], env);
        forall j | 0 <= j < i ensures Listed(CommandsInAssignment(prefix[j])) {
          ListedGrown(before, segments, universe, CommandsInAssignment(prefix[j]));
        }
        rs := rs + [r];
        i := i + 1;
      }
    }

    method AssignmentValue(a: Assignment, env: Environment) returns (r: CommandWord)
      requires Valid() && Named(NamesInAssignment(a), universe)
      modifies this
      ensures Kept()
      ensures (a.value.Some? ==> BasicWord(a.value.value)) ==> r == PrefixValue(a, env) && functions == old(functions)
      ensures Listed(CommandsInAssignment(a))
      decreases universe - active, a
    {
      if a.value.None? {
        return Literal("");
      }
      assert NamesInAssignment(a) == NamesInOption(a.value) == NamesInWord(a.value.value);
      r := Word(a.value.value, env);
    }

    // ---------------------------------------------------------------- redirects

    method Redirects(redirects: seq<Redirect>, env: Environment) returns (rs: seq<(string, CommandWord)>)
      requires Valid() && Named(NamesInRedirects(redirects), universe)
      modifies this
      ensures Kept() && |rs| == |redirects| && (redirects == [] ==> functions == old(functions))
      ensures Listed(CommandsInRedirects(redirects))
      decreases universe - active, redirects, 0
    {
      rs := [];
      var i := 0;
      while i < |redirects|
        invariant i == |rs| <= |redirects| && Kept() && (i == 0 ==> functions == old(functions))
        invariant forall j :: 0 <= j < i ==> Listed(CommandsInOption(redirects[j].body) + CommandsInOption(redirects[j].target))
      {
        var redirect := redirects[i];
        ghost var before := segments;
        assert forall name :: name in NamesInOption(redirect.body) + NamesInOption(redirect.target) ==> name in NamesInRedirects(redirects);
        if redirect.body.Some? {
          var ignored := Word(redirect.body.value, env);
        }
        ghost var between := segments;
        var target := Dynamic(redirect.operator, "expansion");
        if redirect.target.Some? {
          target := Word(redirect.target.value, env);
        }
        ListedBoth(between, segments, universe, CommandsInOption(redirect.body), CommandsInOption(redirect.target));
        forall j | 0 <= j < i ensures Listed(CommandsInOption(redirects[j].body) + CommandsInOption(redirects[j].target)) {
          ListedGrown(before, segments, universe, CommandsInOption(redirects[j].body) + CommandsInOption(redirects[j].target));
        }
        rs := rs + [(redirect.operator, target)];
        i := i + 1;
      }
    }

    method AddRedirects(segmentIndex: nat, redirects: seq<Redirect>, env: Environment)
      requires Valid() && Named(NamesInRedirects(redirects), universe)
      modifies this
      ensures Kept() && (redirects == [] ==> functions == old(functions))
      ensures Listed(CommandsInRedirects(redirects))
      decreases universe - active, redirects, 1
    {
      var parsed := Redirects(redirects, env);
      ghost var before := segments;
      if parsed == [] {
        return;
      }
      var index := if segmentIndex > |segments| - 1 then segmentIndex else |segments| - 1;
      if index >= |segments| {
        segments := segments + [Segment([Literal("true")], parsed, None)];
      } else {
        segments := segments[index := segments[index].(redirects := segments[index].redirects + parsed)];
      }
      ListedGrown(before, segments, universe, CommandsInRedirects(redirects));
    }

    // ---------------------------------------------------------------- statements

    method Script(script: Script, env: Environment) returns (after: Environment)
      requires Valid() && Named(NamesInScript(script), universe)
      modifies this
      ensures Kept()
      ensures Agrees(Group(script.commands), env, after)
      ensures Listed(CommandsInScript(script))
      decreases universe - active, script
    {
      after := Statements(script.commands, env);
    }

    method Statements(statements: seq<Statement>, env: Environment) returns (after: Environment)
      requires Valid() && Named(NamesInStatements(statements), universe)
      modifies this
      ensures Kept()
      ensures Agrees(Group(statements), env, after)
      ensures Listed(CommandsInStatements(statements))
      ensures statements != [] ==> Runs(statements[0].command, env)
      decreases universe - active, statements
    {
      hide ListedIn, RunIn, WordValue, BasicWord;
      after := env;
      var i := 0;
      ghost var calls := |universe - active|;
      assert statements[..0] == [];
      while i < |statements|
        invariant i <= |statements| && Kept()
        invariant BasicNode(Group(statements)) && BasicFunctions(old(functions)) ==>
                    && BasicFunctions(functions)
                    && VisitedAll(statements, Known(old(functions), env), active, calls)
                       == VisitedAll(statements[i..], Known(functions, after), active, calls)
        invariant forall j :: 0 <= j < i ==> Listed(CommandsInStatement(statements[j]))
        invariant i > 0 ==> Runs(statements[0].command, env)
        invariant i == 0 ==> after == env
      {
        ghost var before := segments;
        assert statements[i..][0] == statements[i] && statements[i..][1..] == statements[i + 1..];
        assert BasicNode(Group(statements)) ==> BasicStatement(statements[i]);
        after := Statement(statements[i], after);
        forall j | 0 <= j < i ensures Listed(CommandsInStatement(statements[j])) {
          ListedGrown(before, segments, universe, CommandsInStatement(statements[j]));
        }
        if i > 0 && Nameable(statements[0].command) {
          RunGrown(before, segments, universe, WordValue(statements[0].command.head.value, env));
        }
        i := i + 1;
      }
      assert statements[|statements|..] == [];
      StatementsListed(segments, universe, statements);
    }

    method Statement(statement: Statement, env: Environment) returns (after: Environment)
      requires Valid() && Named(NamesInStatement(statement), universe)
      modifies this
      ensures Kept()
      ensures statement.redirects == [] ==> Agrees(statement.command, env, after)
      ensures Listed(CommandsInStatement(statement))
      ensures Runs(statement.command, env)
      decreases universe - active, statement
    {
      var before := |segments|;
      after := Node(statement.command, env);
      ghost var visited := segments;
      if statement.redirects != [] {
        AddRedirects(before, statement.redirects, after);
        ListedGrown(visited, segments, universe, CommandsInNode(statement.command));
        if Nameable(statement.command) {
          RunGrown(visited, segments, universe, WordValue(statement.command.head.value, env));
        }
      }
    }

    method Node(n: ShellNode, env: Environment) returns (after: Environment)
      requires Valid() && Named(NamesInNode(n), universe)
      modifies this
      ensures Kept()
      ensures Agrees(n, env, after)
      ensures Listed(CommandsInNode(n))
      ensures Runs(n, env)
      decreases universe - active, n, 3
    {
      hide ListedIn, Visited, RunIn, WordValue;
      after := env;
      NothingListed(segments, universe);
      match n
      case Nested(statement) => after := Statement(statement, env);
      case Command(_, _, _, _) => after := Command(n, env);
      case Joined(commands, operators) => after := Joined(n, env);
      case Group(body) => after := Statements(body, env);
      case Subshell(body) => var inner := Statements(body, env);
      case Conditional(_, _, _) => Conditional(n, env);
      case Loop(_, _, _) => ForLoop(n, env);
      case While(clause, body) =>
        var first := Statements(clause, env);
        ghost var before := segments;
        var second := Statements(body, env);
        ListedBoth(before, segments, universe, CommandsInStatements(clause), CommandsInStatements(body));
      case Definition(name, definition) => DefineFunction(n, env);
      case Case(word, items) => Alternatives(n, env);
      case Coprocess(process, redirects) =>
        var inner := Node(process, env);
        ghost var before := segments;
        AddRedirects(|segments|, redirects, env);
        ListedBoth(before, segments, universe, CommandsInNode(process), CommandsInRedirects(redirects));
      case TestCommand(test) => TestExpression(test, env);
      case ArithmeticCommand(expression) =>
        if expression.Some? {
          Arithmetic(expression.value, env);
        }
      case ArithmeticLoop(heads, body) => CountingLoop(n, env);
    }

    method Conditional(n: ShellNode, env: Environment)
      requires n.Conditional? && Valid() && Named(NamesInNode(n), universe)
      modifies this
      ensures Kept()
      ensures Listed(CommandsInNode(n))
      decreases universe - active, n, 2
    {
      hide ListedIn, Grown, Named, NamesInNode, CommandsInNode, RunIn, WordValue, BasicWord;
      ConditionalNamed(n, universe);
      ghost var a, b := CommandsInStatements(n.clause), CommandsInStatements(n.consequent);
      ghost var zero := segments;
      var first := Statements(n.clause, env);
      ghost var one := segments;
      var second := Statements(n.consequent, env);
      GrownTwice(zero, one, segments);
      ListedBoth(one, segments, universe, a, b);
      if n.alternative.Some? {
        ghost var two := segments;
        var third := Node(n.alternative.value, env);
        GrownTwice(zero, two, segments);
        ListedBoth(two, segments, universe, a + b, CommandsInNode(n.alternative.value));
      }
      ConditionalCommands(n);
    }

    method Joined(n: ShellNode, env: Environment) returns (after: Environment)
      requires n.Joined? && Valid() && Named(NamesInNode(n), universe)
      modifies this
      ensures Kept()
      ensures Listed(CommandsInNode(n))
      decreases universe - active, n, 2
    {
      after := env;
      var i := 0;
      while i < |n.commands|
        invariant i <= |n.commands| && Kept()
        invariant forall j :: 0 <= j < i ==> Listed(CommandsInNode(n.commands[j]))
      {
        ghost var earlier := segments;
        var before := |segments|;
        after := Node(n.commands[i], after);
        ghost var visited := segments;
        var last := |segments| - 1;
        if i < |n.operators| && last >= before {
          segments := segments[last := segments[last].(joiner := Some(n.operators[i]))];
        }
        ListedGrown(visited, segments, universe, CommandsInNode(n.commands[i]));
        forall j | 0 <= j < i ensures Listed(CommandsInNode(n.commands[j])) {
          ListedGrown(earlier, segments, universe, CommandsInNode(n.commands[j]));
        }
        i := i + 1;
      }
    }

    method Alternatives(n: ShellNode, env: Environment)
      requires n.Case? && Valid() && Named(NamesInNode(n), universe)
      modifies this
      ensures Kept()
      ensures Listed(CommandsInNode(n))
      decreases universe - active, n, 2
    {
      hide ListedIn;
      var subject := Word(n.word, env);
      var i := 0;
      while i < |n.items|
        invariant i <= |n.items| && Kept()
        invariant Listed(CommandsInWord(n.word))
        invariant forall j :: 0 <= j < i ==> Listed(CommandsInWords(n.items[j].patterns) + CommandsInStatements(n.items[j].body))
      {
        var item := n.items[i];
        assert forall name :: name in NamesInWords(item.patterns) + NamesInStatements(item.body) ==> name in NamesInNode(n);
        ghost var before := segments;
        var patterns := Words(item.patterns, env);
        ghost var between := segments;
        var inner := Statements(item.body, env);
        ListedBoth(between, segments, universe, CommandsInWords(item.patterns), CommandsInStatements(item.body));
        ListedGrown(before, segments, universe, CommandsInWord(n.word));
        forall j | 0 <= j < i ensures Listed(CommandsInWords(n.items[j].patterns) + CommandsInStatements(n.items[j].body)) {
          ListedGrown(before, segments, universe, CommandsInWords(n.items[j].patterns) + CommandsInStatements(n.items[j].body));
        }
        i := i + 1;
      }
      CaseListed(segments, universe, n);
    }

    method CountingLoop(n: ShellNode, env: Environment)
      requires n.ArithmeticLoop? && Valid() && Named(NamesInNode(n), universe)
      modifies this
      ensures Kept()
      ensures Listed(CommandsInNode(n))
      decreases universe - active, n, 2
    {
      var i := 0;
      while i < |n.heads|
        invariant i <= |n.heads| && Kept()
        invariant forall j :: 0 <= j < i ==> Listed(CommandsInArithmetic(n.heads[j]))
      {
        ghost var before := segments;
        Arithmetic(n.heads[i], env);
        forall j | 0 <= j < i ensures Listed(CommandsInArithmetic(n.heads[j])) {
          ListedGrown(before, segments, universe, CommandsInArithmetic(n.heads[j]));
        }
        i := i + 1;
      }
      ghost var before := segments;
      var inner := Statements(n.body, env);
      forall j | 0 <= j < |n.heads| ensures Listed(CommandsInArithmetic(n.heads[j])) {
        ListedGrown(before, segments, universe, CommandsInArithmetic(n.heads[j]));
      }
    }

    method ForLoop(n: ShellNode, env: Environment)
      requires n.Loop? && Valid() && Named(NamesInNode(n), universe)
      modifies this
      ensures Kept()
      ensures Listed(CommandsInNode(n))
      ensures n.body != [] && Nameable(n.body[0].command) && BasicWord(n.variable)
              && IsVariableName(WordValue(n.variable, env).value) && WordValue(n.variable, env).Literal?
              && 0 < |n.wordlist| <= MAX_FOR_UNROLL && (forall i :: 0 <= i < |n.wordlist| ==> WordIsStatic(n.wordlist[i])) ==>
                // unrolled: the first command of the body is there under every name the variable gives it
                forall i :: 0 <= i < |n.wordlist| ==>
                  Runs(n.body[0].command, env[WordValue(n.variable, env).value := Literal(StaticText(n.wordlist[i]))])
      decreases universe - active, n, 2
    {
      hide ListedIn, RunIn;
      var name := Word(n.variable, env);
      ghost var one := segments;
      var values := Words(n.wordlist, env);
      ghost var words := CommandsInWord(n.variable) + CommandsInWords(n.wordlist);
      ListedBoth(one, segments, universe, CommandsInWord(n.variable), CommandsInWords(n.wordlist));
      ghost var two := segments;
      if name.Dynamic? || !IsVariableName(name.value) {
        var inner := Statements(n.body, env);
        ListedBoth(two, segments, universe, words, CommandsInStatements(n.body));
        return;
      }
      if values != [] && |values| <= MAX_FOR_UNROLL && forall i :: 0 <= i < |values| ==> values[i].Literal? {
        Unrolled(n, name.value, values, env);
        ListedBoth(two, segments, universe, words, CommandsInStatements(n.body));
        return;
      }
      var inner := Statements(n.body, env[name.value := Dynamic(name.value, "loop")]);
      ListedBoth(two, segments, universe, words, CommandsInStatements(n.body));
    }

    /** The body once for each distinct value. */
    method Unrolled(n: ShellNode, name: string, values: seq<CommandWord>, env: Environment)
      requires n.Loop? && Valid() && Named(NamesInNode(n), universe)
      requires values != [] && forall i :: 0 <= i < |values| ==> values[i].Literal?
      modifies this
      ensures Kept() && Listed(CommandsInStatements(n.body))
      ensures n.body != [] ==> forall i :: 0 <= i < |values| ==> Runs(n.body[0].command, env[name := Literal(values[i].value)])
      decreases universe - active, n, 1
    {
      hide ListedIn, RunIn, WordValue, BasicWord;
      var seen: set<string> := {};
      var i := 0;
      while i < |values|
        invariant i <= |values| && Kept()
        invariant i == 0 ==> seen == {}
        invariant i > 0 ==> Listed(CommandsInStatements(n.body))
        invariant forall j :: 0 <= j < i ==> values[j].value in seen
        invariant n.body != [] ==> forall v :: v in seen ==> Runs(n.body[0].command, env[name := Literal(v)])
      {
        if values[i].value !in seen {
          ghost var before := segments;
          var inner := Statements(n.body, env[name := values[i]]);
          if n.body != [] && Nameable(n.body[0].command) {
            forall v | v in seen
              ensures Runs(n.body[0].command, env[name := Literal(v)])
            {
              RunGrown(before, segments, universe, WordValue(n.body[0].command.head.value, env[name := Literal(v)]));
            }
          }
          seen := seen + {values[i].value};
        }
        i := i + 1;
      }
    }

    /** The one place where functions come into being; a name that is not known is refused. */
    method DefineFunction(n: ShellNode, env: Environment)
      requires n.Definition? && Valid() && Named(NamesInNode(n), universe)
      modifies this
      ensures Kept()
      ensures Agrees(n, env, env)
      ensures Listed(CommandsInNode(n))
      decreases universe - active, n, 2
    {
      assert forall name :: name in DefinedName(n.name) ==> name in NamesInNode(n);
      KnownName(n.name, universe);
      var name := Word(n.name, env);
      if name.Dynamic? {
        Fail("The function name is not static.");
        return;
      }
      if IsVariableName(name.value) {
        functions := functions[name.value := n.definition];
      }
    }

    method Command(n: ShellNode, env: Environment) returns (after: Environment)
      requires n.Command? && Valid() && Named(NamesInNode(n), universe)
      modifies this
      ensures Kept()
      ensures n.head.Some? ==> CallerKept(env, after, n.prefix)
      ensures Agrees(n, env, after)
      ensures Listed(CommandsInNode(n))
      ensures Runs(n, env)
      decreases universe - active, n, 2
    {
      hide ListedIn, Named, NamesInNode, Grown, RunIn;
      ghost var start := segments;
      var values, head, words, redirects := Evaluate(n, env);
      ghost var before := segments;
      if n.head.None? {
        NothingListed(segments, universe);
        assert Own(n) == {} && CommandsInNode(n) == Within(n);
        after := ApplyAssignments(n.prefix, values, env);
        return;
      }
      if head.Literal? && head.value in functions {
        after := InvokeFunction(head.value, words, n, values, env);
        ghost var called := segments;
        RedirectsNamed(n, universe);
        AddRedirects(|segments|, n.redirects, after);
        GrownTwice(before, called, segments);
        GrownTwice(start, before, segments);
        FunctionsNeedNoListing(n, universe, segments, head.value);
        FunctionsRun(segments, universe, head.value);
        ListedBoth(before, segments, universe, Within(n), Own(n));
        return;
      }
      segments := segments + [Segment([head] + words, redirects, None)];
      OneListed(before, segments, universe, n, head, words, redirects);
      OneRuns(before, universe, head, words, redirects);
      GrownTwice(start, before, segments);
      return env;
    }

    /** The words, assignments and redirects of a command, in their order; what they contain is visited. */
    method Evaluate(n: ShellNode, env: Environment)
      returns (values: seq<CommandWord>, head: CommandWord, words: seq<CommandWord>, redirects: seq<(string, CommandWord)>)
      requires n.Command? && Valid() && Named(NamesInNode(n), universe)
      modifies this
      ensures Kept()
      ensures |values| == |n.prefix| && |words| == |n.suffix| && |redirects| == |n.redirects|
      ensures BasicNode(n) ==> functions == old(functions) && (n.head.None? ==> values == PrefixValues(n.prefix, env))
      ensures Nameable(n) ==> head == WordValue(n.head.value, env)
      ensures n.head.Some? ==>
                (WordIsStatic(n.head.value) ==> head == Literal(StaticText(n.head.value))) && (WordIsDynamic(n.head.value) ==> head.Dynamic?)
      ensures forall i :: 0 <= i < |words| && WordIsStatic(n.suffix[i]) ==> words[i] == Literal(StaticText(n.suffix[i]))
      ensures Listed(Within(n))
      decreases universe - active, n, 1
    {
      hide ListedIn;
      values := AssignmentValues(n.prefix, env);
      ghost var one := segments;
      head := Dynamic("", "expansion");
      if n.head.Some? {
        assert NamesInOption(n.head) == NamesInWord(n.head.value);
        head := Word(n.head.value, env);
      } else {
        NothingListed(segments, universe);
      }
      ListedBoth(one, segments, universe, CommandsInAssignments(n.prefix), CommandsInOption(n.head));
      ghost var two := segments;
      words := Words(n.suffix, env);
      ListedBoth(two, segments, universe, CommandsInAssignments(n.prefix) + CommandsInOption(n.head), CommandsInWords(n.suffix));
      ghost var three := segments;
      redirects := Redirects(n.redirects, env);
      ListedBoth(three, segments, universe, CommandsInAssignments(n.prefix) + CommandsInOption(n.head) + CommandsInWords(n.suffix),
                 CommandsInRedirects(n.redirects));
    }

    /**
     A call runs the function's body in a copy of the environment.  It is refused while the
     function is active; otherwise the caller gets back every variable but its own positional and
     prefix-assigned ones, which it keeps.
     */
    method InvokeFunction(name: string, arguments: seq<CommandWord>, n: ShellNode, values: seq<CommandWord>, env: Environment)
      returns (after: Environment)
      requires n.Command? && |values| == |n.prefix| && Valid() && name in functions
      modifies this
      ensures Kept() && CallerKept(env, after, n.prefix)
      ensures name in old(active) ==> decision.Some? && after == env && segments == old(segments)
      ensures name !in old(active) ==> Listed(CommandsInNode(old(functions)[name]))
      ensures BasicNode(n) && n.head.Some? && WordValue(n.head.value, env) == Literal(name) && arguments == [] ==> Agrees(n, env, after)
      decreases universe - active, n, 1
    {
      hide Visited, Assigned, IsPositional, CallerKept, BasicNode, BasicFunctions, WordValue, Returned, Named, NamesInNode,
           WithoutPositional, ListedIn, Grown, CommandsInNode;
      SegmentsStay(segments);
      CallVisited(n, Known(functions, env), active, |universe - active|, name);
      if name in active {
        Fail("Recursive function call: " + name);
        assert CallerKept(env, env, n.prefix) by { NothingReturned(env, n.prefix); }
        return env;
      }
      var call := CallEnvironment(n.prefix, values, arguments, env);
      call := RunBody(name, n, call);
      after := Returned(env, call, n.prefix);
    }

    /** The body of a function runs while the function is active. */
    method RunBody(name: string, ghost n: ShellNode, env: Environment) returns (after: Environment)
      requires n.Command? && Valid() && name in functions && name !in active
      modifies this
      ensures Kept() && universe - old(active) != {}
      ensures Listed(CommandsInNode(old(functions)[name]))
      ensures BasicFunctions(old(functions)) ==>
                Visited(old(functions)[name], Known(old(functions), env), old(active) + {name}, |universe - old(active)| - 1)
                == Some(Known(functions, after))
      decreases universe - active, n, 0
    {
      hide Visited, Named, NamesInNode, ListedIn, Grown, CommandsInNode;
      var definition := functions[name];
      assert universe - (active + {name}) == universe - active - {name};
      assert |universe - active - {name}| == |universe - active| - 1;
      active := active + {name};
      after := Node(definition, env);
      assert active - {name} == old(active);
      active := active - {name};
    }
  }

  /** What the caller gets back: all variables of the call but positional and prefix-assigned ones. */
  function Returned(env: Environment, call: Environment, prefix: seq<Assignment>): (after: Environment)
    ensures CallerKept(env, after, prefix)
    ensures prefix == [] ==> after == env + WithoutPositional(call)
  {
    assert prefix == [] ==> PrefixNames(prefix) == {};
    env + map key | key in call && !IsPositional(key) && key !in PrefixNames(prefix) :: call[key]
  }

  lemma NothingReturned(env: Environment, prefix: seq<Assignment>)
    ensures CallerKept(env, env, prefix)
  {
  }

  /** The environment a function's body starts in: assignments made, positional variables replaced by the arguments. */
  method CallEnvironment(prefix: seq<Assignment>, values: seq<CommandWord>, arguments: seq<CommandWord>, env: Environment)
    returns (call: Environment)
    requires |values| == |prefix|
    ensures prefix == [] && arguments == [] ==> call == WithoutPositional(env)
  {
    call := ApplyAssignments(prefix, values, env);
    call := map key | key in call && !IsPositional(key) :: call[key];
    var i := 0;
    while i < |arguments|
      invariant arguments == [] ==> call == WithoutPositional(Assigned(prefix, values, env))
    {
      call := call[Decimal(i + 1) := arguments[i]];
      i := i + 1;
    }
  }

  /** One call of a basic script. */
  lemma CallVisited(n: ShellNode, k: Known, active: set<string>, calls: nat, name: string)
    requires n.Command? && name in k.functions
    ensures BasicNode(n) && BasicFunctions(k.functions) && n.head.Some? && WordValue(n.head.value, k.env) == Literal(name) ==>
              && n.prefix == []
              && BasicNode(k.functions[name])
              && Visited(n, k, active, calls) ==
                 if name in active then Some(k)
                 else if calls == 0 then None
                 else
                   var inner := Visited(k.functions[name], k.(env := WithoutPositional(k.env)), active + {name}, calls - 1);
                   if inner.None? then None else Some(inner.value.(env := k.env + WithoutPositional(inner.value.env)))
  {
  }

  /** A script whose functions all have static names is visited to its end. */
  method CommandProgram(script: Script) returns (ok: bool, segments: seq<Segment>)
    requires None !in NamesInScript(script)
    ensures script.failed ==> !ok
    ensures !ok ==> segments == []
    // no command escapes: each one written anywhere in the script, but in a function that is never called, is in the list
    ensures ok ==> forall c: Shape :: c in CommandsInScript(script) && c != [] && (c[0].Some? ==> Some(c[0].value) !in NamesInScript(script)) ==>
                     exists i :: 0 <= i < |segments| && Matches(segments[i].words, c)
  {
    if script.failed {
      return false, [];
    }
    ghost var universe := set name | name in NamesInScript(script) && name.Some? :: name.value;
    var visitor := new CommandVisitor(universe);
    var after := visitor.Script(script, map[]);
    ok := visitor.decision.None?;
    segments := if ok then visitor.segments else [];
  }

  // ---------------------------------------------------------------- names that depend on variables

  function Simple(n: ShellNode): Statement {
    Statement(n, false, [])
  }

  function Call(head: Word): ShellNode {
    Command(Some(head), [], [], [])
  }

  /** `${x}a` */
  const X_AND_A := Composed("${x}a", [Variable("x", "${x}"), Plain("a")])

  /** `f$x` */
  const NAMED_BY_X := Composed("f$x", [Plain("f"), Variable("x", "$x")])

  function Assign(value: Word): ShellNode {
    Command(None, [Assignment(Some("x"), Some(value), true)], [], [])
  }

  /** `x=${x}a; p; f$x` */
  const STEP := Group([Simple(Assign(X_AND_A)), Simple(Call(Bare("p"))), Simple(Call(NAMED_BY_X))])

  /** `function f$x { x=${x}a; p; f$x; }` */
  const DEFINE_STEP := Definition(NAMED_BY_X, STEP)

  /** `p() { function f$x { x=${x}a; p; f$x; }; }; x=; p; f$x` */
  const ENDLESS := Group([
    Simple(Definition(Bare("p"), DEFINE_STEP)), Simple(Assign(Bare(""))), Simple(Call(Bare("p"))), Simple(Call(NAMED_BY_X))])

  predicate HasX(env: Environment) {
    "x" in env && env["x"].Literal?
  }

  /** `p` is known, so is the function named by the present x, and only shorter names are active. */
  ghost predicate Stepping(k: Known, active: set<string>) {
    && HasX(k.env) && BasicFunctions(k.functions)
    && "p" in k.functions && k.functions["p"] == DEFINE_STEP
    && "f" + k.env["x"].value in k.functions && k.functions["f" + k.env["x"].value] == STEP
    && IsVariableName("f" + k.env["x"].value)
    && forall name :: name in active ==> |name| <= |k.env["x"].value| && name != "p"
  }

  lemma AreBasic()
    ensures BasicNode(STEP) && BasicNode(DEFINE_STEP) && BasicNode(ENDLESS)
    ensures BasicWord(NAMED_BY_X) && BasicWord(X_AND_A) && forall w :: BasicWord(w) ==> BasicNode(Call(w)) && BasicNode(Assign(w))
  {
    assert BasicNode(STEP);
    assert BasicNode(DEFINE_STEP);
    assert BasicNode(Definition(Bare("p"), DEFINE_STEP));
  }

  lemma TwoParts(a: Part, b: Part, env: Environment)
    requires BasicPart(a) && BasicPart(b) && PartValue(a, env).Literal? && PartValue(b, env).Literal?
    ensures PartsValue([a, b], env) == Literal(PartValue(a, env).value + PartValue(b, env).value)
  {
    var parts := [a, b];
    assert parts[..1] == [a] && parts[..1][..0] == [];
    assert Gathered([a], env) == ("" + PartValue(a, env).value, None);
    assert "" + PartValue(a, env).value == PartValue(a, env).value;
  }

  lemma NameOf(env: Environment)
    requires HasX(env)
    ensures BasicWord(NAMED_BY_X) && WordValue(NAMED_BY_X, env) == Literal("f" + env["x"].value)
    ensures BasicWord(X_AND_A) && WordValue(X_AND_A, env) == Literal(env["x"].value + "a")
  {
    TwoParts(Plain("f"), Variable("x", "$x"), env);
    TwoParts(Variable("x", "${x}"), Plain("a"), env);
  }

  lemma KeepsX(env: Environment)
    requires HasX(env)
    ensures HasX(WithoutPositional(env)) && WithoutPositional(env)["x"] == env["x"]
  {
    assert !IsDigit("x"[0]);
  }

  lemma Assigns(value: Word, k: Known, active: set<string>, calls: nat)
    requires BasicWord(value) && BasicFunctions(k.functions)
    ensures Visited(Assign(value), k, active, calls) == Some(k.(env := k.env["x" := WordValue(value, k.env)]))
  {
    var prefix := [Assignment(Some("x"), Some(value), true)];
    var values := PrefixValues(prefix, k.env);
    assert values == [WordValue(value, k.env)];
    assert prefix[..0] == [] && values[..0] == [];
    assert Assigned(prefix, values, k.env) == Assigned([], [], k.env)["x" := values[0]];
  }

  lemma VisitedFirst(a: Statement, rest: seq<Statement>, k: Known, active: set<string>, calls: nat)
    requires BasicStatement(a) && (forall i :: 0 <= i < |rest| ==> BasicStatement(rest[i])) && BasicFunctions(k.functions)
    ensures var first := Visited(a.command, k, active, calls);
            VisitedAll([a] + rest, k, active, calls) == if first.None? then None else VisitedAll(rest, first.value, active, calls)
  {
    assert ([a] + rest)[1..] == rest;
  }

  lemma VisitedThree(a: Statement, b: Statement, c: Statement, k: Known, active: set<string>, calls: nat)
    requires BasicStatement(a) && BasicStatement(b) && BasicStatement(c) && BasicFunctions(k.functions)
    ensures var first := Visited(a.command, k, active, calls);
            var second := if first.None? then None else Visited(b.command, first.value, active, calls);
            var third := if second.None? then None else Visited(c.command, second.value, active, calls);
            VisitedAll([a, b, c], k, active, calls) == third
  {
    hide Visited;
    assert [a, b, c] == [a] + [b, c] && [b, c] == [b] + [c] && [c] == [c] + [];
    VisitedFirst(a, [b, c], k, active, calls);
    var first := Visited(a.command, k, active, calls);
    if first.Some? {
      VisitedFirst(b, [c], first.value, active, calls);
      var second := Visited(b.command, first.value, active, calls);
      if second.Some? {
        VisitedFirst(c, [], second.value, active, calls);
      }
    }
  }

  /** Calling p defines the function named by the present x. */
  lemma Prepares(k: Known, active: set<string>, calls: nat)
    requires HasX(k.env) && BasicFunctions(k.functions) && "p" in k.functions && k.functions["p"] == DEFINE_STEP && "p" !in active
    requires IsVariableName("f" + k.env["x"].value)
    ensures BasicNode(Call(Bare("p")))
    ensures var r := Visited(Call(Bare("p")), k, active, calls);
            if calls == 0 then r == None
            else r.Some? && r.value.functions == k.functions["f" + k.env["x"].value := STEP] && HasX(r.value.env) && r.value.env["x"] == k.env["x"]
  {
    hide IsVariableName, IsPositional;
    AreBasic();
    if calls > 0 {
      KeepsX(k.env);
      var inner := k.(env := WithoutPositional(k.env));
      NameOf(inner.env);
      assert Visited(DEFINE_STEP, inner, active + {"p"}, calls - 1)
          == Some(inner.(functions := k.functions["f" + k.env["x"].value := STEP]));
      KeepsX(inner.env);
    }
  }

  /** However many calls may be nested, the call of the function named by x needs more. */
  lemma {:induction false} NeverDone(k: Known, active: set<string>, calls: nat)
    requires Stepping(k, active)
    ensures BasicNode(Call(NAMED_BY_X)) && Visited(Call(NAMED_BY_X), k, active, calls) == None
    decreases calls
  {
    AreBasic();
    NameOf(k.env);
    var name := "f" + k.env["x"].value;
    CallVisited(Call(NAMED_BY_X), k, active, calls, name);
    assert |name| == |k.env["x"].value| + 1 && name !in active;
    if calls > 0 {
      StepNeverDone(k, active, calls);
    }
  }

  lemma GroupVisited(body: seq<Statement>, k: Known, active: set<string>, calls: nat)
    requires (forall i :: 0 <= i < |body| ==> BasicStatement(body[i])) && BasicFunctions(k.functions)
    ensures BasicNode(Group(body)) && Visited(Group(body), k, active, calls) == VisitedAll(body, k, active, calls)
  {
  }

  /** After the name has grown and been defined, the call of the longer name is again one that needs more. */
  lemma StillStepping(k: Known, active: set<string>, next: Known)
    requires Stepping(k, active) && BasicFunctions(next.functions) && HasX(next.env)
    requires next.env["x"].value == k.env["x"].value + "a"
    requires next.functions == k.functions["f" + next.env["x"].value := STEP]
    ensures Stepping(next, active + {"f" + k.env["x"].value})
  {
    var name := "f" + k.env["x"].value;
    assert "f" + next.env["x"].value == name + "a";
    assert |name| >= 1 && name[0] == 'f' && (name + "a")[0] == 'f';
  }

  lemma StillNamed(x: string)
    requires IsVariableName("f" + x)
    ensures IsVariableName("f" + (x + "a")) && "f" + x != "p"
  {
    assert "f" + (x + "a") == ("f" + x) + "a";
    assert ("f" + x)[0] == 'f';
  }

  lemma {:induction false} StepNeverDone(k: Known, active: set<string>, calls: nat)
    requires Stepping(k, active) && calls > 0
    ensures BasicNode(STEP)
    ensures Visited(STEP, k.(env := WithoutPositional(k.env)), active + {"f" + k.env["x"].value}, calls - 1) == None
    decreases calls, 0
  {
    hide WithoutPositional, WordValue, Visited, VisitedAll, IsVariableName, BasicNode, BasicFunctions;
    AreBasic();
    KeepsX(k.env);
    var x := k.env["x"].value;
    var inner, now := k.(env := WithoutPositional(k.env)), active + {"f" + x};
    NameOf(inner.env);
    StillNamed(x);
    Assigns(X_AND_A, inner, now, calls - 1);
    var longer := inner.(env := inner.env["x" := Literal(x + "a")]);
    GroupVisited(STEP.body, inner, now, calls - 1);
    VisitedThree(Simple(Assign(X_AND_A)), Simple(Call(Bare("p"))), Simple(Call(NAMED_BY_X)), inner, now, calls - 1);
    Prepares(longer, now, calls - 1);
    var next := Visited(Call(Bare("p")), longer, now, calls - 1);
    if next.Some? {
      StillStepping(k, active, next.value);
      NeverDone(next.value, now, calls - 1);
    }
  }

  lemma FirstStep(k: Known)
    requires HasX(k.env) && BasicFunctions(k.functions) && k.env["x"] == Literal("")
    requires "p" in k.functions && k.functions["p"] == DEFINE_STEP && "f" in k.functions && k.functions["f"] == STEP
    ensures Stepping(k, {})
  {
    assert "f" + "" == "f";
  }

  lemma DefinesP(nothing: Known, calls: nat)
    requires nothing == Known(map[], map[])
    ensures BasicNode(Definition(Bare("p"), DEFINE_STEP))
    ensures Visited(Definition(Bare("p"), DEFINE_STEP), nothing, {}, calls) == Some(Known(map["p" := DEFINE_STEP], map[]))
  {
    AreBasic();
  }

  lemma VisitedFour(a: Statement, b: Statement, c: Statement, d: Statement, k: Known, active: set<string>, calls: nat)
    requires BasicStatement(a) && BasicStatement(b) && BasicStatement(c) && BasicStatement(d) && BasicFunctions(k.functions)
    ensures var first := Visited(a.command, k, active, calls);
            VisitedAll([a, b, c, d], k, active, calls) == if first.None? then None else VisitedAll([b, c, d], first.value, active, calls)
  {
    assert [a, b, c, d] == [a] + [b, c, d];
    VisitedFirst(a, [b, c, d], k, active, calls);
  }

  /** A script of finite size whose visit has no end: its functions name ever new ones after a variable. */
  lemma EndlessVisit(calls: nat)
    ensures BasicNode(ENDLESS) && Visited(ENDLESS, Known(map[], map[]), {}, calls) == None
    ensures None in NamesInNode(ENDLESS)
  {
    hide WordValue, WithoutPositional, Visited, VisitedAll, NamesInNode;
    AreBasic();
    NotStatic();
    var nothing, defined := Known(map[], map[]), Known(map["p" := DEFINE_STEP], map[]);
    var started := defined.(env := map["x" := Literal("")]);
    var a, b, c, d := Simple(Definition(Bare("p"), DEFINE_STEP)), Simple(Assign(Bare(""))), Simple(Call(Bare("p"))), Simple(Call(NAMED_BY_X));
    BareText("", map[]);
    GroupVisited([a, b, c, d], nothing, {}, calls);
    VisitedFour(a, b, c, d, nothing, {}, calls);
    DefinesP(nothing, calls);
    Assigns(Bare(""), defined, {}, calls);
    VisitedThree(b, c, d, defined, {}, calls);
    assert "f" + "" == "f";
    Prepares(started, {}, calls);
    var next := Visited(Call(Bare("p")), started, {}, calls);
    if next.Some? {
      FirstStep(next.value);
      NeverDone(next.value, {}, calls);
    }
  }

  lemma BareText(text: string, env: Environment)
    ensures WordValue(Bare(text), env) == Literal(text)
  {
  }

  lemma NotStatic()
    ensures None in NamesInNode(ENDLESS)
  {
    assert None in DefinedName(NAMED_BY_X) by {
      assert !PartIsStatic(NAMED_BY_X.parts[1]);
    }
    var p := Definition(Bare("p"), DEFINE_STEP);
    assert None in NamesInNode(DEFINE_STEP);
    assert None in NamesInNode(p);
    assert ENDLESS.body[0] == Simple(p) && None in NamesInStatement(ENDLESS.body[0]);
    assert None in NamesInStatements(ENDLESS.body);
  }
}
